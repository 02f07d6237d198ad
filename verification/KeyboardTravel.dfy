/** How far the arrow keys move the camera, while a key is held and after its release. */
module KeyboardTravels {
  import opened Easings
  import opened Keyboards
  import opened Vectors

  predicate Durations(fds: seq<real>) {
    forall i :: 0 <= i < |fds| ==> fds[i] >= 0.0
  }

  // ---------------------------------------------------------------- while a key is held

  lemma {:induction false} HoldingGoesAlongDirection(m: Momentum, fds: seq<real>)
    requires m.current != ZERO
    ensures WholeDisplacement(m, fds) == m.current.Scaled(Distance(m, fds))
    ensures Coasted(m, fds).current == m.current
    decreases |fds|
  {
    hide Considered, Displacement, Covered;
    if fds != [] {
      FrameGoesAlong(m, fds[0]);
      ConsideredKeepsDirection(m, fds[0]);
      HoldingGoesAlongDirection(Considered(m, fds[0]), fds[1..]);
      ScaledSum(m.current, Covered(m, fds[0]), Distance(Considered(m, fds[0]), fds[1..]));
    }
  }

  /** The part of the acceleration still to come, to the fourth power. */
  function Lag(t: real): real {
    Fourth(1.0 - t / 0.4)
  }

  lemma LagInUnit(t: real)
    requires 0.0 <= t <= 0.4
    ensures 0.0 <= Lag(t) <= 1.0 && Lag(0.4) == 0.0 && Lag(0.0) == 1.0
  {
    var u := 1.0 - t / 0.4;
    SquareAtMost(u, 1.0);
    SquareAtMost(u * u, 1.0);
    assert Fourth(u) == (u * u) * (u * u);
  }

  lemma AcceleratedSpeed(t: real)
    ensures var u := 1.0 - t / 0.4; SpeedAt(t, false) == 1.5 - 1.5 * (u * u * u)
  {
    EasingsMirror(t / 0.4);
    assert SpeedAt(t, false) == Mix(0.0, 1.5, CubicOut(t / 0.4));
    assert Mix(0.0, 1.5, CubicOut(t / 0.4)) == 1.5 * CubicOut(t / 0.4);
  }

  /** A frame goes no further than at full speed, and falls short of that by no more than it makes up of the lag. */
  lemma HeldFrameCovers(m: Momentum, fd: real)
    requires Bounded(m) && m.current != ZERO && fd >= 0.0
    ensures var b := Considered(m, fd).timePassed;
      && 1.5 * fd - 0.15 * (Lag(m.timePassed) - Lag(b)) <= Covered(m, fd) <= 1.5 * fd
      && (fd > 0.0 ==> Covered(m, fd) > 0.0)
  {
    hide SpeedAt, Fourth;
    var a, b := m.timePassed, Considered(m, fd).timePassed;
    var u, v := 1.0 - a / 0.4, 1.0 - b / 0.4;
    var cube := v * v * v;
    AcceleratedSpeed(b);
    assert Covered(m, fd) == (1.5 - 1.5 * cube) * fd;
    assert 0.0 <= v <= u <= 1.0;
    CubeBelow(v);
    ProductNonNegative(cube, fd);
    assert (1.5 - 1.5 * cube) * fd == 1.5 * fd - 1.5 * (cube * fd);
    if fd > 0.0 {
      assert v < 1.0;
      PositiveProduct(1.0 - cube, fd);
      assert (1.0 - cube) * fd == fd - cube * fd;
    }
    CubeStep(u, v);
    if v > 0.0 {
      assert fd == b - a == 0.4 * (u - v);
      assert 1.5 * (cube * fd) == 0.15 * (4.0 * cube * (u - v)) by {
        assert cube * (0.4 * (u - v)) == 0.4 * (cube * (u - v));
      }
    } else {
      assert cube == 0.0 && cube * fd == 0.0;
    }
  }

  lemma CubeBelow(v: real)
    requires 0.0 <= v <= 1.0
    ensures 0.0 <= v * v * v <= 1.0 && (v < 1.0 ==> v * v * v < 1.0)
  {
    ProductInUnit(v, v);
    ProductInUnit(v * v, v);
    ProductMonotone(v * v, 1.0, v);
  }

  /** However long a key is held, the distance is full speed times the time, less at most 0.15 and by less the more of
      the acceleration is over; with it all over, it is just that. */
  lemma {:induction false} HoldingDistance(m: Momentum, fds: seq<real>)
    requires Bounded(m) && m.current != ZERO && Durations(fds)
    ensures var b := Coasted(m, fds).timePassed;
      && 1.5 * Total(fds) - 0.15 * (Lag(m.timePassed) - Lag(b)) <= Distance(m, fds) <= 1.5 * Total(fds)
      && b == Capped(m.timePassed + Total(fds))
      && (Total(fds) > 0.0 ==> Distance(m, fds) > 0.0)
    ensures Total(fds) >= 0.0 && Bounded(Coasted(m, fds))
    decreases |fds|
  {
    hide SpeedAt, Lag, Covered;
    if fds != [] {
      HeldFrameCovers(m, fds[0]);
      ConsideredBounded(m, fds[0]);
      ConsideredKeepsDirection(m, fds[0]);
      HoldingDistance(Considered(m, fds[0]), fds[1..]);
    }
  }

  /** Held long enough an axis is at full speed, and goes 1.5 a second from then on. */
  lemma FullSpeed(m: Momentum, fds: seq<real>)
    requires Bounded(m) && m.current != ZERO && Durations(fds) && m.timePassed == MAX_SPEED_REACHED_IN_MS
    ensures Distance(m, fds) == 1.5 * Total(fds)
  {
    hide Lag, Distance, Coasted;
    HoldingDistance(m, fds);
    LagInUnit(0.4);
    assert Capped(m.timePassed + Total(fds)) == 0.4;
  }

  /** After any run, while keys of an axis are held, the world moves where the latest of them points, by full speed
      times the time less at most 0.15. */
  lemma HeldAxisMoves(run: seq<Event>, fds: seq<real>) returns (dx: real, dy: real)
    requires (forall i :: 0 <= i < |run| ==> MayHappen(run[i])) && Durations(fds)
    ensures Left in Held(run) || Right in Held(run) ==>
      && WholeDisplacement(Final(AT_REST, run).x, fds) == XAxis(Latest(Held(run), Left, Right) * dx)
      && 1.5 * Total(fds) - 0.15 <= dx <= 1.5 * Total(fds) && (Total(fds) > 0.0 ==> dx > 0.0)
    ensures Up in Held(run) || Down in Held(run) ==>
      && WholeDisplacement(Final(AT_REST, run).y, fds) == YAxis(Latest(Held(run), Down, Up) * dy)
      && 1.5 * Total(fds) - 0.15 <= dy <= 1.5 * Total(fds) && (Total(fds) > 0.0 ==> dy > 0.0)
  {
    hide Final, Held, Latest, Distance, WholeDisplacement, Lag, Coasted, Total, XAxis, YAxis, Vector2.Scaled, Bounded;
    DirectionIsLatestHeldKey(run);
    SpeedStaysBounded(run);
    dx, dy := 0.0, 0.0;
    var x, y := Final(AT_REST, run).x, Final(AT_REST, run).y;
    if x.current != ZERO {
      dx := HeldMoves(x, fds);
      AxesScaled(Latest(Held(run), Left, Right), dx);
    }
    if y.current != ZERO {
      dy := HeldMoves(y, fds);
      AxesScaled(Latest(Held(run), Down, Up), dy);
    }
  }

  lemma AxesScaled(v: real, d: real)
    ensures XAxis(v).Scaled(d) == XAxis(v * d) && YAxis(v).Scaled(d) == YAxis(v * d)
  {
  }

  lemma HeldMoves(m: Momentum, fds: seq<real>) returns (d: real)
    requires Bounded(m) && m.current != ZERO && Durations(fds)
    ensures WholeDisplacement(m, fds) == m.current.Scaled(d)
    ensures 1.5 * Total(fds) - 0.15 <= d <= 1.5 * Total(fds) && (Total(fds) > 0.0 ==> d > 0.0)
  {
    hide Lag, WholeDisplacement, Distance;
    d := Distance(m, fds);
    HoldingGoesAlongDirection(m, fds);
    HoldingDistance(m, fds);
    LagInUnit(m.timePassed);
    LagInUnit(Coasted(m, fds).timePassed);
  }

  // ---------------------------------------------------------------- after the release

  /** Key events change no speed and no time. */
  lemma KeysKeepTime(h: Helper, key: Key, isPress: bool)
    ensures var r := KeyEvent(h, key, isPress);
      && r.x.timePassed == h.x.timePassed && r.x.speed == h.x.speed
      && r.y.timePassed == h.y.timePassed && r.y.speed == h.y.speed
  {
  }

  /** The release that lets go of an axis makes its direction the momentum, with all the time it has been
      accelerating. */
  lemma ReleaseKeepsGoing(run: seq<Event>, key: Key)
    ensures var before, after := Final(AT_REST, run), Final(AT_REST, run + [KeyRelease(key, false)]);
      && ((key == Left || key == Right) && after.x.current == ZERO ==>
            after.x.momentum == XAxis(Latest(Held(run), Left, Right)) && after.x.timePassed == before.x.timePassed)
      && ((key == Up || key == Down) && after.y.current == ZERO ==>
            after.y.momentum == YAxis(Latest(Held(run), Down, Up)) && after.y.timePassed == before.y.timePassed)
  {
    hide Latest, Held;
    var all := run + [KeyRelease(key, false)];
    assert all[..|all| - 1] == run;
    RunRefines(run);
    KeysKeepTime(Final(AT_REST, run), key, false);
    assert XAxis(1.0) != ZERO && XAxis(-1.0) != ZERO && YAxis(1.0) != ZERO && YAxis(-1.0) != ZERO;
  }

  /** The slope of the fourth power, from above. */
  lemma CubeStepAbove(a: real, b: real)
    requires 0.0 <= b <= a
    ensures Fourth(a) - Fourth(b) <= 4.0 * CubicIn(a) * (a - b)
  {
    hide Fourth;
    CubesBelow(a, b);
    ProductMonotone(a * a * a + a * a * b + a * (b * b) + b * b * b, 4.0 * (a * a * a), a - b);
    FourthDifference(a, b);
  }

  lemma CubesBelow(a: real, b: real)
    requires 0.0 <= b <= a
    ensures a * a * a + a * a * b + a * (b * b) + b * b * b <= 4.0 * (a * a * a)
  {
    ProductNonNegative(a, a);
    ProductNonNegative(b, b);
    ProductMonotone(b, a, a * a);
    ProductMonotone(b, a, b);
    ProductMonotone(b, a, a);
    ProductMonotone(b * b, a * a, a);
    ProductMonotone(b * b, a * a, b);
    assert a * a * b == (a * a) * b && a * (b * b) == (b * b) * a && b * b * b == (b * b) * b;
  }

  /** Between two times, the area under the speed curve is at most the later time's share, plus what slowing down
      adds. */
  lemma AreaBelow(a: real, b: real, longest: real)
    requires 0.0 <= b <= a && a - b <= longest
    ensures COASTING * (Fourth(a) - Fourth(b)) - longest * (SpeedAt(a, true) - SpeedAt(b, true))
         <= SpeedAt(b, true) * (a - b)
    ensures SpeedAt(b, true) <= SpeedAt(a, true)
  {
    hide SpeedAt, Fourth, CubicIn;
    SlowedByCube(a);
    SlowedByCube(b);
    CubicInMonotone(b, a);
    CubeStepAbove(a, b);
    AreaTerms(Fourth(a) - Fourth(b), CubicIn(a), CubicIn(b), a - b, longest);
  }

  lemma SlowedByCube(t: real)
    ensures SpeedAt(t, true) == COASTING * (4.0 * CubicIn(t))
  {
    SlowedSpeed(t);
  }

  lemma AreaTerms(area: real, p: real, q: real, d: real, longest: real)
    requires area <= 4.0 * p * d && q <= p && 0.0 <= d <= longest
    ensures COASTING * area - longest * (COASTING * (4.0 * p) - COASTING * (4.0 * q)) <= COASTING * (4.0 * q) * d
    ensures COASTING * (4.0 * q) <= COASTING * (4.0 * p)
  {
    ProductMonotone(area, 4.0 * p * d, COASTING);
    ProductMonotone(d, longest, 4.0 * COASTING * (p - q));
    CoastingTerms(p, q, d, longest);
  }

  lemma CoastingTerms(p: real, q: real, d: real, longest: real)
    ensures COASTING * (4.0 * p * d) - (4.0 * COASTING * (p - q)) * d == COASTING * (4.0 * q) * d
    ensures longest * (COASTING * (4.0 * p) - COASTING * (4.0 * q)) == (4.0 * COASTING * (p - q)) * longest
  {
  }

  lemma CoastingFrame(m: Momentum, fd: real)
    requires Bounded(m) && m.current == ZERO && fd >= 0.0
    ensures var a, b := m.timePassed, Considered(m, fd).timePassed;
      0.0 <= b <= a && a - b <= fd && Covered(m, fd) >= SpeedAt(b, true) * (a - b)
  {
    hide SpeedAt;
    var a, b := m.timePassed, Considered(m, fd).timePassed;
    SlowedSpeed(0.0);
    if a != 0.0 && b == 0.0 {
      assert SpeedAt(b, true) == 0.0;
    }
  }

  /** A frame of coasting falls short of the area under the speed curve by no more than it slows down. */
  lemma CoastingFrameCovers(m: Momentum, fd: real, longest: real)
    requires Bounded(m) && m.current == ZERO && 0.0 <= fd <= longest
    ensures var a, b := m.timePassed, Considered(m, fd).timePassed;
      COASTING * (Fourth(a) - Fourth(b)) - longest * (SpeedAt(a, true) - SpeedAt(b, true)) <= Covered(m, fd)
  {
    hide SpeedAt, Fourth, Covered, Considered;
    CoastingFrame(m, fd);
    AreaBelow(m.timePassed, Considered(m, fd).timePassed, longest);
  }

  predicate NoLongerThan(fds: seq<real>, longest: real) {
    forall i :: 0 <= i < |fds| ==> 0.0 <= fds[i] <= longest
  }

  /** The shorter the frames, the closer coasting comes to the area under the speed curve. */
  lemma {:induction false} CoastingIsNearArea(m: Momentum, fds: seq<real>, longest: real)
    requires Bounded(m) && m.current == ZERO && NoLongerThan(fds, longest) && longest >= 0.0
    ensures var b := Coasted(m, fds).timePassed;
      COASTING * (Fourth(m.timePassed) - Fourth(b)) - longest * (SpeedAt(m.timePassed, true) - SpeedAt(b, true))
        <= Distance(m, fds)
    decreases |fds|
  {
    hide SpeedAt, Fourth, Covered, Considered;
    if fds != [] {
      var n := Considered(m, fds[0]);
      CoastingFrameCovers(m, fds[0], longest);
      ConsideredBounded(m, fds[0]);
      ConsideredKeepsDirection(m, fds[0]);
      CoastingIsNearArea(n, fds[1..], longest);
      var b := Coasted(m, fds).timePassed;
      CoastingAddsUp(Fourth(m.timePassed), Fourth(n.timePassed), Fourth(b));
      SlowingAddsUp(longest, SpeedAt(m.timePassed, true), SpeedAt(n.timePassed, true), SpeedAt(b, true));
    }
  }

  lemma SlowingAddsUp(f: real, a: real, b: real, c: real)
    ensures f * (a - b) + f * (b - c) == f * (a - c)
  {
  }

  /** Let go at full speed, an axis goes on for 0.15 less 1.5 times the longest frame at least, if it has come to
      rest. */
  lemma FullSpeedCoasts(m: Momentum, fds: seq<real>, longest: real)
    requires m.timePassed == MAX_SPEED_REACHED_IN_MS && 0.0 <= m.speed <= MAX_SPEED_PER_SEC && m.current == ZERO
    requires NoLongerThan(fds, longest) && longest >= 0.0 && Total(fds) >= MAX_SPEED_REACHED_IN_MS
    ensures 0.15 - 1.5 * longest <= Distance(m, fds) <= 0.15
  {
    hide Distance, Coasted, Total;
    CoastingEnds(m, fds);
    CoastingIsNearArea(m, fds, longest);
    CoastingIsBounded(m, fds);
    assert Fourth(0.4) == 0.0256 && Fourth(0.0) == 0.0;
    SlowedSpeed(0.4);
    SlowedSpeed(0.0);
    CoastingLimit();
    assert SpeedAt(0.4, true) == 1.5 && SpeedAt(0.0, true) == 0.0;
  }
}
