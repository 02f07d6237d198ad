/** The sampling window of `MouseMovements.hpp`: which mouse moves of a drag still count when the button is released. */
module AccelerationWindow {
  import opened Vectors

  const ACCELERATION_THRESHOLD_MS := 200
  const NANOSECONDS_PER_MS := 1_000_000

  /** A move, with the milliseconds since the previous one. */
  datatype Sample = Sample(t: nat, move: Vector2)

  /** The running total after `n` samples. */
  function TimeAt(h: seq<Sample>, n: nat): nat
    requires n <= |h|
  {
    if n == 0 then 0 else TimeAt(h, n - 1) + h[n - 1].t
  }

  function Elapsed(h: seq<Sample>): nat {
    TimeAt(h, |h|)
  }

  function Sum(h: seq<Sample>): Vector2 {
    if h == [] then ZERO else h[0].move.Plus(Sum(h[1..]))
  }

  function LimitAt(h: seq<Sample>, n: nat): (r: nat)
    requires n <= |h|
    ensures r <= ACCELERATION_THRESHOLD_MS && r <= TimeAt(h, n)
  {
    if TimeAt(h, n) <= ACCELERATION_THRESHOLD_MS then TimeAt(h, n) else LimitAt(h, n - 1)
  }

  /** The largest running total that does not pass the threshold. */
  function Limit(h: seq<Sample>): (r: nat)
    ensures r <= ACCELERATION_THRESHOLD_MS && r <= Elapsed(h)
  {
    LimitAt(h, |h|)
  }

  /** Whether a sample is too old, `total` milliseconds into the drag. */
  predicate Outdated(h: seq<Sample>, total: nat, k: nat)
    requires k < |h|
  {
    TimeAt(h, k + 1) <= total - Limit(h)
  }

  /** How many samples from `k` on are outdated before one is not. */
  function FirstKept(h: seq<Sample>, total: nat, k: nat): (r: nat)
    requires k <= |h|
    ensures k <= r <= |h|
    ensures forall i :: k <= i < r ==> Outdated(h, total, i)
    ensures r < |h| ==> !Outdated(h, total, r)
    decreases |h| - k
  {
    if k == |h| || !Outdated(h, total, k) then k else FirstKept(h, total, k + 1)
  }

  /** The samples that count. */
  function Window(h: seq<Sample>, total: nat): seq<Sample> {
    if total <= ACCELERATION_THRESHOLD_MS then h else h[FirstKept(h, total, 0)..]
  }

  // ---------------------------------------------------------------- what the window is

  lemma {:induction false} TimeGrows(h: seq<Sample>, i: nat, j: nat)
    requires i <= j <= |h|
    ensures TimeAt(h, i) <= TimeAt(h, j)
    decreases j
  {
    if i < j {
      TimeGrows(h, i, j - 1);
    }
  }

  /** Past the threshold a sample counts exactly when less than the limit has passed since it: a sliding window whose
      length is how long the drag had taken when it last was within the threshold. */
  lemma KeptExactlyWhenRecent(h: seq<Sample>, total: nat, k: nat)
    requires k < |h| && total > ACCELERATION_THRESHOLD_MS
    ensures var first := |h| - |Window(h, total)|;
      && Window(h, total) == h[first..]
      && (first <= k <==> total - TimeAt(h, k + 1) < Limit(h))
  {
    var first := FirstKept(h, total, 0);
    if first <= k {
      TimeGrows(h, first + 1, k + 1);
      assert !Outdated(h, total, first);
    } else {
      assert Outdated(h, total, k);
    }
  }

  lemma LimitIsLargest(h: seq<Sample>)
    ensures exists j :: 0 <= j <= |h| && TimeAt(h, j) == Limit(h)
    ensures forall k :: 0 <= k <= |h| && TimeAt(h, k) <= ACCELERATION_THRESHOLD_MS ==> TimeAt(h, k) <= Limit(h)
  {
    LimitAtIsLargest(h, |h|);
  }

  lemma {:induction false} LimitAtIsLargest(h: seq<Sample>, n: nat)
    requires n <= |h|
    ensures exists j :: 0 <= j <= n && TimeAt(h, j) == LimitAt(h, n)
    ensures forall k :: 0 <= k <= n && TimeAt(h, k) <= ACCELERATION_THRESHOLD_MS ==> TimeAt(h, k) <= LimitAt(h, n)
  {
    if TimeAt(h, n) <= ACCELERATION_THRESHOLD_MS {
      forall k | 0 <= k <= n ensures TimeAt(h, k) <= LimitAt(h, n) {
        TimeGrows(h, k, n);
      }
    } else {
      LimitAtIsLargest(h, n - 1);
    }
  }

  /** Some time after the last move, the threshold being past, no move counts any more exactly if that time has reached
      the limit. */
  lemma EmptyExactlyWhenLate(h: seq<Sample>, late: nat)
    requires h != [] && Elapsed(h) + late > ACCELERATION_THRESHOLD_MS
    ensures Window(h, Elapsed(h) + late) == [] <==> late >= Limit(h)
  {
    KeptExactlyWhenRecent(h, Elapsed(h) + late, |h| - 1);
  }

  /** The limit is 0, so that past the threshold not even an immediate release finds a move that counts, exactly when
      one move came more than the threshold after all the others, which took no time. */
  lemma EmptyExactlyAfterLateMove(h: seq<Sample>)
    requires Elapsed(h) > ACCELERATION_THRESHOLD_MS
    ensures Window(h, Elapsed(h)) == [] <==>
            exists k :: 0 <= k < |h| && TimeAt(h, k) == 0 && h[k].t > ACCELERATION_THRESHOLD_MS
    ensures Window(h, Elapsed(h)) == [] <==> Limit(h) == 0
  {
    EmptyExactlyWhenLate(h, 0);
    LimitAtZero(h, |h|);
  }

  lemma {:induction false} LimitAtZero(h: seq<Sample>, n: nat)
    requires n <= |h| && TimeAt(h, n) > ACCELERATION_THRESHOLD_MS
    ensures LimitAt(h, n) == 0 <==> exists k :: 0 <= k < n && TimeAt(h, k) == 0 && h[k].t > ACCELERATION_THRESHOLD_MS
  {
    if TimeAt(h, n - 1) > ACCELERATION_THRESHOLD_MS {
      LimitAtZero(h, n - 1);
    } else if TimeAt(h, n - 1) == 0 {
      assert h[n - 1].t > ACCELERATION_THRESHOLD_MS;
    } else {
      forall k | 0 <= k < n && TimeAt(h, k) == 0 ensures h[k].t <= ACCELERATION_THRESHOLD_MS {
        TimeGrows(h, k + 1, n - 1);
      }
    }
  }

  lemma {:induction false} TimeAppend(h: seq<Sample>, s: Sample, n: nat)
    requires n <= |h|
    ensures TimeAt(h + [s], n) == TimeAt(h, n)
  {
    if n > 0 {
      TimeAppend(h, s, n - 1);
    }
  }

  lemma {:induction false} LimitAppend(h: seq<Sample>, s: Sample, n: nat)
    requires n <= |h|
    ensures LimitAt(h + [s], n) == LimitAt(h, n)
  {
    TimeAppend(h, s, n);
    if n > 0 {
      LimitAppend(h, s, n - 1);
    }
  }

  lemma ElapsedAppend(h: seq<Sample>, s: Sample)
    ensures Elapsed(h + [s]) == Elapsed(h) + s.t
  {
    TimeAppend(h, s, |h|);
  }

  lemma {:induction false} SumAppend(h: seq<Sample>, s: Sample)
    ensures Sum(h + [s]) == Sum(h).Plus(s.move)
  {
    if h == [] {
      assert h + [s] == [s];
      assert [s][1..] == [];
    } else {
      SumAppend(h[1..], s);
      assert (h + [s])[1..] == h[1..] + [s];
    }
  }

  lemma {:induction false} TimeOfSuffix(h: seq<Sample>, p: nat, n: nat)
    requires p + n <= |h|
    ensures TimeAt(h, p + n) == TimeAt(h, p) + TimeAt(h[p..], n)
  {
    if n > 0 {
      TimeOfSuffix(h, p, n - 1);
    }
  }

  /** Where the samples stop being outdated pins the window down. */
  lemma FirstKeptIs(h: seq<Sample>, total: nat, q: nat)
    requires q <= |h|
    requires q > 0 ==> Outdated(h, total, q - 1)
    requires q < |h| ==> !Outdated(h, total, q)
    ensures FirstKept(h, total, 0) == q
  {
    var r := FirstKept(h, total, 0);
    if r < q {
      TimeGrows(h, r + 1, q);
    }
  }

  // ---------------------------------------------------------------- the buffer and its counters

  /** The buffer is what is left of the history, and the sums are those of the buffer; `ms` may already hold time that
      no sample has yet. */
  ghost predicate Tracks(h: seq<Sample>, buffer: seq<Sample>, cumulator: Vector2, ms: int, total: nat) {
    && |buffer| <= |h| && buffer == h[|h| - |buffer|..]
    && cumulator == Sum(buffer)
    && Elapsed(h) <= total
    && ms == total - TimeAt(h, |h| - |buffer|)
  }

  /** With `left` samples still buffered, the credits are the time passed since the threshold, less what the dropped
      samples took. */
  ghost predicate Credited(h: seq<Sample>, left: nat, total: nat, credits: int) {
    && left <= |h|
    && (total <= ACCELERATION_THRESHOLD_MS ==> left == |h|)
    && (total > ACCELERATION_THRESHOLD_MS ==> credits == total - Limit(h) - TimeAt(h, |h| - left) && credits >= 0)
  }

  lemma PopKeeps(h: seq<Sample>, buffer: seq<Sample>, cumulator: Vector2, ms: int, total: nat, credits: int)
    requires Tracks(h, buffer, cumulator, ms, total) && Credited(h, |buffer|, total, credits)
    requires total > ACCELERATION_THRESHOLD_MS && buffer != [] && buffer[0].t <= credits
    ensures Tracks(h, buffer[1..], cumulator.Minus(buffer[0].move), ms - buffer[0].t, total)
    ensures Credited(h, |buffer| - 1, total, credits - buffer[0].t)
  {
    hide Limit;
    var p := |h| - |buffer|;
    assert buffer[0] == h[p] && buffer[1..] == h[p + 1..];
  }

  lemma StoppedAtWindow(h: seq<Sample>, buffer: seq<Sample>, total: nat, credits: int)
    requires |buffer| <= |h| && buffer == h[|h| - |buffer|..] && Credited(h, |buffer|, total, credits)
    requires total > ACCELERATION_THRESHOLD_MS ==> buffer == [] || buffer[0].t > credits
    ensures buffer == Window(h, total)
  {
    hide Limit, Elapsed;
    if total > ACCELERATION_THRESHOLD_MS {
      var p := |h| - |buffer|;
      if buffer != [] {
        assert buffer[0] == h[p];
      }
      FirstKeptIs(h, total, p);
    } else {
      assert buffer == h;
    }
  }

  lemma BufferIsSuffix(h: seq<Sample>, buffer: seq<Sample>, cumulator: Vector2, ms: int, total: nat)
    requires Tracks(h, buffer, cumulator, ms, total)
    ensures |buffer| <= |h| && buffer == h[|h| - |buffer|..]
  {
  }

  lemma WithinThresholdAnyCredits(h: seq<Sample>, left: nat, total: nat, credits: int, other: int)
    requires Credited(h, left, total, credits) && total <= ACCELERATION_THRESHOLD_MS
    ensures Credited(h, left, total, other)
  {
  }

  lemma AddKeeps(h: seq<Sample>, buffer: seq<Sample>, cumulator: Vector2, ms: int, credits: int, s: Sample)
    requires Tracks(h, buffer, cumulator, ms, Elapsed(h)) && Credited(h, |buffer|, Elapsed(h), credits)
    requires Elapsed(h) <= ACCELERATION_THRESHOLD_MS ==> credits == 0
    ensures Tracks(h + [s], buffer + [s], cumulator.Plus(s.move), ms + s.t, Elapsed(h) + s.t)
    ensures Credited(h + [s], |buffer| + 1, Elapsed(h) + s.t, credits + s.t)
  {
    hide Limit, Sum, Elapsed;
    SumAppend(buffer, s);
    ElapsedAppend(h, s);
    SuffixAppend(h, s, |h| - |buffer|);
    TimeAppend(h, s, |h| - |buffer|);
    AddKeepsCredit(h, |buffer|, credits, s);
  }

  lemma SuffixAppend(h: seq<Sample>, s: Sample, p: nat)
    requires p <= |h|
    ensures (h + [s])[p..] == h[p..] + [s]
  {
  }

  lemma AddKeepsCredit(h: seq<Sample>, left: nat, credits: int, s: Sample)
    requires Credited(h, left, Elapsed(h), credits) && (Elapsed(h) <= ACCELERATION_THRESHOLD_MS ==> credits == 0)
    ensures Credited(h + [s], left + 1, Elapsed(h) + s.t, credits + s.t)
  {
    hide Limit, Elapsed;
    TimeAppend(h, s, |h| - left);
    ElapsedAppend(h, s);
    LimitAfterAdd(h, s);
  }

  lemma LimitAfterAdd(h: seq<Sample>, s: Sample)
    ensures Elapsed(h + [s]) > ACCELERATION_THRESHOLD_MS ==> Limit(h + [s]) == Limit(h)
    ensures Elapsed(h) <= ACCELERATION_THRESHOLD_MS ==> Limit(h) == Elapsed(h)
  {
    TimeAppend(h, s, |h|);
    LimitAppend(h, s, |h|);
  }

  /** Time passes without a move. */
  lemma WaitKeeps(h: seq<Sample>, buffer: seq<Sample>, cumulator: Vector2, ms: int, credits: int, late: nat)
    requires Tracks(h, buffer, cumulator, ms, Elapsed(h)) && Credited(h, |buffer|, Elapsed(h), credits)
    requires Elapsed(h) <= ACCELERATION_THRESHOLD_MS ==> credits == 0
    ensures Tracks(h, buffer, cumulator, ms + late, Elapsed(h) + late)
    ensures Credited(h, |buffer|, Elapsed(h) + late, credits + late)
  {
    hide Sum, Limit, Elapsed, Credited;
    WaitKeepsCredit(h, |buffer|, credits, late);
  }

  lemma WaitKeepsCredit(h: seq<Sample>, left: nat, credits: int, late: nat)
    requires Credited(h, left, Elapsed(h), credits) && (Elapsed(h) <= ACCELERATION_THRESHOLD_MS ==> credits == 0)
    ensures Credited(h, left, Elapsed(h) + late, credits + late)
  {
    hide Limit, Elapsed;
    LimitAfterAdd(h, Sample(late, ZERO));
  }

  lemma TimeOfBuffer(h: seq<Sample>, buffer: seq<Sample>, cumulator: Vector2, ms: int, total: nat)
    requires Tracks(h, buffer, cumulator, ms, total)
    ensures ms == Elapsed(buffer) + (total - Elapsed(h))
  {
    hide Sum;
    TimeOfSuffix(h, |h| - |buffer|, |buffer|);
  }

  /** `_getAccelerationTranslation` with an exact square root. */
  function Acceleration(samples: seq<Sample>, cumulator: Vector2, accelMs: int, sqrt: real -> real): Vector2 {
    if samples == [] || accelMs == 0 then ZERO
    else
      var strength := if |samples| > 100 then 1.0 else |samples| as real / 100.0;
      cumulator.Scaled(sqrt(ACCELERATION_THRESHOLD_MS as real / accelMs as real) * strength)
  }

  /** What a release `late` milliseconds after the last move makes of a drag. */
  function Released(h: seq<Sample>, late: nat, sqrt: real -> real): Vector2 {
    var kept := Window(h, Elapsed(h) + late);
    Acceleration(kept, Sum(kept), Elapsed(kept) + late, sqrt)
  }

  ghost predicate IsSquareRoot(sqrt: real -> real) {
    forall v :: v >= 0.0 ==> sqrt(v) >= 0.0 && sqrt(v) * sqrt(v) == v
  }

  /** A factor whose square is 200 over the milliseconds, times the square of the share of a hundred samples. */
  predicate Damps(f: real, samples: nat, ms: int) {
    var n := if samples < 100 then samples as real else 100.0;
    f > 0.0 && f * f * ms as real * 10000.0 == 200.0 * n * n
  }

  /** A release carries the sum of the moves on by a factor that only depends on their number and time: the root of 200
      over the milliseconds taken, less by as much as samples are missing to a hundred. */
  lemma ReleaseIsDamped(samples: seq<Sample>, cumulator: Vector2, accelMs: int, sqrt: real -> real) returns (f: real)
    requires IsSquareRoot(sqrt) && samples != [] && accelMs > 0
    ensures Acceleration(samples, cumulator, accelMs, sqrt) == cumulator.Scaled(f)
    ensures f > 0.0 && f * f * accelMs as real <= 200.0
    ensures f * f * accelMs as real == 200.0 <==> |samples| >= 100
    ensures Damps(f, |samples|, accelMs)
  {
    hide Sum, Damps;
    var ms := accelMs as real;
    var quotient := 200.0 / ms;
    var root := sqrt(quotient);
    var strength := if |samples| > 100 then 1.0 else |samples| as real / 100.0;
    f := root * strength;
    assert quotient > 0.0 && root >= 0.0 && root * root == quotient;
    PositiveProduct(root, strength);
    ProductInUnit(strength, strength);
    DivideBack(200.0, ms);
    FactorSquared(root, strength, ms);
    StrengthDamps(f, strength, |samples|, accelMs);
    assert strength * strength == 1.0 <==> |samples| >= 100 by {
      if |samples| < 100 {
        ProductMonotone(strength, 1.0, strength);
      }
    }
  }

  lemma StrengthDamps(f: real, strength: real, samples: nat, ms: int)
    requires f > 0.0 && f * f * ms as real == 200.0 * (strength * strength)
    requires strength == if samples > 100 then 1.0 else samples as real / 100.0
    ensures Damps(f, samples, ms)
  {
    var n := if samples < 100 then samples as real else 100.0;
    assert n == 100.0 * strength;
    assert n * n == 10000.0 * (strength * strength);
    assert 200.0 * n * n == 200.0 * (n * n);
  }

  lemma FactorSquared(root: real, strength: real, ms: real)
    requires root * root * ms == 200.0
    ensures (root * strength) * (root * strength) * ms == 200.0 * (strength * strength)
  {
    var s := strength * strength;
    assert (root * strength) * (root * strength) == (root * root) * s;
    assert ((root * root) * s) * ms == ((root * root) * ms) * s;
  }

  /** Moves that count have taken time, if the drag has. */
  lemma KeptTakesTime(h: seq<Sample>, late: nat)
    requires Window(h, Elapsed(h) + late) != [] && Elapsed(h) + late > 0
    ensures Elapsed(Window(h, Elapsed(h) + late)) + late > 0
  {
    hide Limit;
    var total := Elapsed(h) + late;
    if total > ACCELERATION_THRESHOLD_MS {
      var first := FirstKept(h, total, 0);
      assert Window(h, total) == h[first..];
      TimeOfSuffix(h, first, |h| - first);
      if first > 0 {
        assert Outdated(h, total, first - 1) && !Outdated(h, total, first);
        TimeOfSuffix(h, first, 1);
        TimeGrows(h[first..], 1, |h| - first);
      }
    }
  }

  /** What a release carries on: the sum of the moves that count, damped by their number and by the time since the move
      before the first of them. */
  lemma ReleaseCarriesKeptMoves(h: seq<Sample>, late: nat, sqrt: real -> real) returns (f: real)
    requires IsSquareRoot(sqrt) && Elapsed(h) + late > 0 && Window(h, Elapsed(h) + late) != []
    ensures var kept := Window(h, Elapsed(h) + late);
      && |kept| <= |h|
      && Released(h, late, sqrt) == Sum(kept).Scaled(f)
      && Damps(f, |kept|, Elapsed(h) + late - TimeAt(h, |h| - |kept|))
  {
    hide Limit, IsSquareRoot, FirstKept, Sum, Acceleration, Damps, Vector2.Scaled;
    var kept := Window(h, Elapsed(h) + late);
    KeptTakesTime(h, late);
    f := ReleaseIsDamped(kept, Sum(kept), Elapsed(kept) + late, sqrt);
    TimeOfSuffix(h, |h| - |kept|, |kept|);
  }

  lemma ScaledToZero(v: Vector2, f: real)
    requires f != 0.0
    ensures v.Scaled(f) == ZERO <==> v == ZERO
  {
  }

  /** A release carries nothing on exactly if there was no move, or no time has passed since the first, or the release
      comes too late after the last, or the moves that count cancel out. */
  lemma ReleaseCarriesNothingExactly(h: seq<Sample>, late: nat, sqrt: real -> real)
    requires IsSquareRoot(sqrt)
    ensures Released(h, late, sqrt) == ZERO <==>
      || h == []
      || Elapsed(h) + late == 0
      || (Elapsed(h) + late > ACCELERATION_THRESHOLD_MS && late >= Limit(h))
      || Sum(Window(h, Elapsed(h) + late)) == ZERO
  {
    hide Limit, IsSquareRoot, FirstKept;
    var total := Elapsed(h) + late;
    var kept := Window(h, total);
    if h != [] && total > 0 {
      if total > ACCELERATION_THRESHOLD_MS {
        EmptyExactlyWhenLate(h, late);
      }
      if kept != [] {
        KeptTakesTime(h, late);
        var f := ReleaseIsDamped(kept, Sum(kept), Elapsed(kept) + late, sqrt);
        ScaledToZero(Sum(kept), f);
      }
    }
  }

  class MouseMovements {
    var accelBuffer: seq<Sample>
    var accelLatestUpdate: int
    var accelCumulator: Vector2
    var accelMs: int
    var accelBufferCount: nat
    var accelMsPassedTotal: nat
    var accelMsPassedLast: nat
    var timeCredits: int
    /** Every move since the last reset. */
    ghost var history: seq<Sample>

    ghost predicate Valid()
      reads this
    {
      && Tracks(history, accelBuffer, accelCumulator, accelMs, accelMsPassedTotal)
      && Credited(history, |accelBuffer|, accelMsPassedTotal, timeCredits)
      && accelBufferCount == |history|
      && accelMsPassedTotal == Elapsed(history)
      && accelBuffer == Window(history, accelMsPassedTotal)
      && (accelMsPassedTotal <= ACCELERATION_THRESHOLD_MS ==> timeCredits == 0)
      && (history == [] ==> accelMsPassedLast == 0)
    }

    constructor ()
      ensures Valid() && history == []
    {
      accelBuffer, accelLatestUpdate, accelCumulator, accelMs := [], 0, ZERO, 0;
      accelBufferCount, accelMsPassedTotal, accelMsPassedLast, timeCredits := 0, 0, 0, 0;
      history := [];
    }

    method ResetAccelerationBuffer()
      modifies this
      ensures Valid() && history == []
      ensures accelLatestUpdate == old(accelLatestUpdate)
    {
      accelBuffer, accelCumulator, accelMs := [], ZERO, 0;
      accelBufferCount, accelMsPassedTotal, accelMsPassedLast, timeCredits := 0, 0, 0, 0;
      history := [];
    }

    /** `MouseMoveHelper::stopAnim` */
    method StopAnim()
      requires Valid()
      modifies this
      ensures Valid()
      ensures history == if Elapsed(old(history)) != 0 then [] else old(history)
    {
      if accelMsPassedTotal != 0 {
        ResetAccelerationBuffer();
      }
    }

    /** The first move of a drag takes no time, any other the whole milliseconds since the last. */
    ghost function Since(now: int): (ms: nat)
      requires history != [] ==> accelLatestUpdate <= now
      reads this
      ensures history == [] ==> ms == 0
      ensures history != [] ==> ms * 1_000_000 <= now - accelLatestUpdate < (ms + 1) * 1_000_000
    {
      if history == [] then 0 else (now - accelLatestUpdate) / NANOSECONDS_PER_MS
    }

    method UpdateAccelerationTime(now: int)
      requires Valid() && (history != [] ==> accelLatestUpdate <= now)
      modifies `accelMsPassedLast, `accelMsPassedTotal, `accelMs, `accelLatestUpdate
      ensures accelMsPassedLast == old(Since(now)) && accelLatestUpdate == now
      ensures accelMsPassedTotal == old(accelMsPassedTotal) + accelMsPassedLast
      ensures accelMs == old(accelMs) + accelMsPassedLast
    {
      hide Tracks, Credited, Window;
      if accelBufferCount != 0 {
        accelMsPassedLast := (now - accelLatestUpdate) / NANOSECONDS_PER_MS;
        accelMsPassedTotal := accelMsPassedTotal + accelMsPassedLast;
        accelMs := accelMs + accelMsPassedLast;
      }
      accelLatestUpdate := now;
    }

    /** The pop loop. */
    method PopOutdated()
      requires accelMsPassedTotal > ACCELERATION_THRESHOLD_MS
      requires Tracks(history, accelBuffer, accelCumulator, accelMs, accelMsPassedTotal)
      requires Credited(history, |accelBuffer|, accelMsPassedTotal, timeCredits)
      modifies `timeCredits, `accelMs, `accelCumulator, `accelBuffer
      ensures Tracks(history, accelBuffer, accelCumulator, accelMs, accelMsPassedTotal)
      ensures Credited(history, |accelBuffer|, accelMsPassedTotal, timeCredits)
      ensures accelBuffer == [] || accelBuffer[0].t > timeCredits
    {
      hide Tracks, Credited;
      while accelBuffer != []
        invariant Tracks(history, accelBuffer, accelCumulator, accelMs, accelMsPassedTotal)
        invariant Credited(history, |accelBuffer|, accelMsPassedTotal, timeCredits)
        decreases |accelBuffer|
      {
        var front := accelBuffer[0];
        if front.t > timeCredits {
          break;
        }
        PopKeeps(history, accelBuffer, accelCumulator, accelMs, accelMsPassedTotal, timeCredits);
        timeCredits := timeCredits - front.t;
        accelMs := accelMs - front.t;
        accelCumulator := accelCumulator.Minus(front.move);
        accelBuffer := accelBuffer[1..];
      }
    }

    method MayReduceAccelerationBuffer()
      requires Tracks(history, accelBuffer, accelCumulator, accelMs, accelMsPassedTotal)
      requires Credited(history, |accelBuffer|, accelMsPassedTotal, timeCredits + accelMsPassedLast)
      modifies `timeCredits, `accelMs, `accelCumulator, `accelBuffer
      ensures Tracks(history, accelBuffer, accelCumulator, accelMs, accelMsPassedTotal)
      ensures Credited(history, |accelBuffer|, accelMsPassedTotal, timeCredits)
      ensures accelBuffer == Window(history, accelMsPassedTotal)
      ensures accelMsPassedTotal <= ACCELERATION_THRESHOLD_MS ==> timeCredits == old(timeCredits)
    {
      hide Tracks, Credited, Window;
      if accelMsPassedTotal > ACCELERATION_THRESHOLD_MS {
        timeCredits := timeCredits + accelMsPassedLast;
        PopOutdated();
      } else {
        WithinThresholdAnyCredits(history, |accelBuffer|, accelMsPassedTotal, timeCredits + accelMsPassedLast,
          timeCredits);
      }
      BufferIsSuffix(history, accelBuffer, accelCumulator, accelMs, accelMsPassedTotal);
      StoppedAtWindow(history, accelBuffer, accelMsPassedTotal, timeCredits);
    }

    method AddToAccelerationBuffer(now: int, tr: Vector2)
      requires Valid() && (history != [] ==> accelLatestUpdate <= now)
      modifies this
      ensures Valid() && accelLatestUpdate == now
      ensures history == old(history) + [Sample(old(Since(now)), tr)]
    {
      hide Tracks, Credited, Window, Sum, Limit, Elapsed;
      UpdateAccelerationTime(now);
      ghost var s := Sample(accelMsPassedLast, tr);
      AddKeeps(history, accelBuffer, accelCumulator, old(accelMs), timeCredits, s);
      ElapsedAppend(history, s);
      accelCumulator := accelCumulator.Plus(tr);
      accelBufferCount := accelBufferCount + 1;
      accelBuffer := accelBuffer + [Sample(accelMsPassedLast, tr)];
      history := history + [s];
      MayReduceAccelerationBuffer();
    }

    method ComputeAccelerationBuffer(now: int, sqrt: real -> real) returns (out: Vector2)
      requires Valid() && (history != [] ==> accelLatestUpdate <= now)
      modifies this
      ensures Valid() && history == []
      ensures out == Released(old(history), old(Since(now)), sqrt)
    {
      hide Credited, Window, Sum, Limit, Elapsed, Acceleration;
      UpdateAccelerationTime(now);
      WaitKeeps(history, accelBuffer, accelCumulator, old(accelMs), timeCredits, accelMsPassedLast);
      MayReduceAccelerationBuffer();
      TimeOfBuffer(history, accelBuffer, accelCumulator, accelMs, accelMsPassedTotal);
      out := Acceleration(accelBuffer, accelCumulator, accelMs, sqrt);
      ResetAccelerationBuffer();
    }

    /** After every move: the sums are those of the buffer, no more than the threshold is uncovered by credits, and the
        oldest sample aside the buffer spans no more than the threshold, and less once the drag has passed it. */
    lemma BufferSpansThreshold()
      requires Valid()
      ensures accelCumulator == Sum(accelBuffer) && accelMs == Elapsed(accelBuffer)
      ensures 0 <= timeCredits && accelMs - timeCredits <= ACCELERATION_THRESHOLD_MS
      ensures accelMsPassedTotal > ACCELERATION_THRESHOLD_MS ==> accelMs - timeCredits == Limit(history)
      ensures accelMsPassedTotal > ACCELERATION_THRESHOLD_MS && accelBuffer != [] ==>
        accelBuffer[0].t > timeCredits && accelMs - accelBuffer[0].t < ACCELERATION_THRESHOLD_MS
      ensures accelBuffer != [] ==> accelMs - accelBuffer[0].t <= ACCELERATION_THRESHOLD_MS
    {
      hide Limit, Sum;
      TimeOfBuffer(history, accelBuffer, accelCumulator, accelMs, accelMsPassedTotal);
      if accelMsPassedTotal > ACCELERATION_THRESHOLD_MS && accelBuffer != [] {
        var p := |history| - |accelBuffer|;
        assert accelBuffer[0] == history[p];
        KeptExactlyWhenRecent(history, accelMsPassedTotal, p);
      }
    }
  }
}
