/**
 * The camera yaw controller. `turnTo` checks the target, picks a direction
 * key, presses it if the camera is too far from the target, then polls the
 * yaw, releasing the key once the camera is within tolerance and pausing a
 * random 5..30 ms after every poll.
 *
 * The task that `turnTo` submits to its single-thread executor is run
 * inline. The camera's yaw readings are an input sequence: `yaws[0]` is the
 * reading that chooses the direction, `yaws[1]` the reading that decides
 * whether to turn at all, and `yaws[2 + i]` the reading of the i-th loop
 * iteration. The gaussian draws behind each pause are a second input. The
 * effects are recorded as a trace of key presses, key releases and pauses.
 */
module Camera {
  import opened KeyboardKeys
  import JavaInt
  import Random

  /** A yaw reading: the camera's yaw as a whole angle between 0 and 360. */
  type Yaw = y: int | 0 <= y <= 360

  /** The tolerance floor: 1.5% of a full turn. */
  const DefaultCameraTolerance: real := 0.015

  /** The pause after every poll: gaussian around 20 ms, limited to [5, 30]. */
  const DelayMean: JavaInt.Int32 := 20
  const DelayMin: JavaInt.Int32 := 5
  const DelayMax: JavaInt.Int32 := 30

  /**
   * `getAngleDifference`: how far the target lies from the start when
   * turning in the direction of increasing angle.
   */
  function AngleDifference(startAngle: Yaw, targetAngle: Yaw): (d: int)
    ensures 0 <= d < 360
    ensures startAngle == targetAngle ==> d == 0
  {
    JavaInt.Rem(targetAngle - startAngle + 360, 360)
  }

  /**
   * On yaws in [0, 360] the dividend is never negative, so Java's `%`
   * agrees with the mathematical remainder, and turning the start by the
   * difference reaches the target's direction.
   */
  lemma AngleDifferenceIsDirected(startAngle: Yaw, targetAngle: Yaw)
    ensures AngleDifference(startAngle, targetAngle) == (targetAngle - startAngle + 360) % 360
    ensures (startAngle + AngleDifference(startAngle, targetAngle)) % 360 == targetAngle % 360
  {
    var d := AngleDifference(startAngle, targetAngle);
    var x := targetAngle - startAngle + 360;
    assert x - d == (x / 360) * 360;
  }

  /** `shouldTurnLeft`: turn left when the target lies less than half a turn ahead. */
  function ShouldTurnLeft(startYaw: Yaw, targetYaw: Yaw): bool {
    AngleDifference(startYaw, targetYaw) < 180
  }

  /**
   * The two directed differences between distinct directions make up one
   * full turn; between equal directions both are 0.
   */
  lemma AngleDifferenceOpposite(s: Yaw, t: Yaw)
    ensures (AngleDifference(s, t) + AngleDifference(t, s)) % 360 == 0
    ensures s % 360 != t % 360 ==> AngleDifference(s, t) + AngleDifference(t, s) == 360
    ensures s % 360 == t % 360 ==> AngleDifference(s, t) == 0 && AngleDifference(t, s) == 0
  {
    var a, b := AngleDifference(s, t), AngleDifference(t, s);
    AngleDifferenceIsDirected(s, t);
    AngleDifferenceIsDirected(t, s);
    if s % 360 == t % 360 {
      assert s == t || (s == 0 && t == 360) || (s == 360 && t == 0);
    } else if t > s {
      assert a == t - s;
      assert b == 360 - (t - s);
    } else {
      assert a == 360 - (s - t);
      assert b == s - t;
    }
  }

  /**
   * Between two different directions, turning left is chosen exactly when
   * the directed way from start to target is the shorter of the two ways.
   */
  lemma ShouldTurnLeftIsShorterWay(s: Yaw, t: Yaw)
    requires s % 360 != t % 360
    ensures ShouldTurnLeft(s, t) <==> AngleDifference(s, t) < AngleDifference(t, s)
  {
    AngleDifferenceOpposite(s, t);
  }

  /** `Math.max(DEFAULT_CAMERA_TOLERANCE, tolerance)`: the tolerance never drops below the floor. */
  function EffectiveTolerance(tolerance: real): (e: real)
    ensures e >= DefaultCameraTolerance && e >= tolerance
    ensures e == DefaultCameraTolerance || e == tolerance
  {
    if DefaultCameraTolerance >= tolerance then DefaultCameraTolerance else tolerance
  }

  /** The camera must still turn while the directed difference exceeds `threshold` degrees. */
  predicate NeedsToChangeYaw(current: Yaw, target: Yaw, threshold: real) {
    AngleDifference(current, target) as real > threshold
  }

  /**
   * The directional key: "left" presses KEY_D and "right" presses KEY_A,
   * exactly as the controller maps them.
   */
  function DirectionKey(current: Yaw, target: Yaw): KeyboardKey {
    if ShouldTurnLeft(current, target) then KeyD else KeyA
  }

  /** The observable effects of the controller. */
  datatype Event =
    | Press(key: KeyboardKey)
    | Release(key: KeyboardKey)
    | Delay(millis: int)

  datatype Status =
    | TargetRejected  // the target was out of range: logged, nothing submitted
    | Finished        // the submitted task returned
    | Stalled         // the supplied readings or draws ran out while the task was still running

  datatype Run = Run(trace: seq<Event>, status: Status)

  /**
   * The polling loop entered with the key held: each iteration re-reads the
   * yaw, releases the key if the camera is now within the threshold, and
   * pauses; the loop ends after the releasing iteration.
   */
  function Poll(target: Yaw, threshold: real, key: KeyboardKey, yaws: seq<Yaw>, draws: seq<real>): Run
    decreases |yaws|
  {
    if yaws == [] then Run([], Stalled)
    else
      var needs := NeedsToChangeYaw(yaws[0], target, threshold);
      var released := if needs then [] else [Release(key)];
      var pause := Random.GaussianBetween(DelayMean, DelayMin, DelayMax, draws);
      if !pause.Sampled? then Run(released, Stalled)
      else if !needs then Run(released + [Delay(pause.value)], Finished)
      else
        var rest := Poll(target, threshold, key, yaws[1..], draws[pause.used..]);
        Run([Delay(pause.value)] + rest.trace, rest.status)
  }

  /** `turnTo(yaw, tolerance)` with its submitted task run to completion. */
  function TurnToSpec(yaw: int, tolerance: real, yaws: seq<Yaw>, draws: seq<real>): Run {
    if yaw < 0 || yaw > 360 then Run([], TargetRejected)
    else if |yaws| < 2 then Run([], Stalled)
    else
      var threshold := 360.0 * EffectiveTolerance(tolerance);
      var key := DirectionKey(yaws[0], yaw);
      if !NeedsToChangeYaw(yaws[1], yaw, threshold) then Run([], Finished)
      else
        var rest := Poll(yaw, threshold, key, yaws[2..], draws);
        Run([Press(key)] + rest.trace, rest.status)
  }

  /** `turnTo(yaw, tolerance)`. */
  method TurnTo(yaw: int, tolerance: real, yaws: seq<Yaw>, draws: seq<real>)
    returns (trace: seq<Event>, status: Status)
    ensures Run(trace, status) == TurnToSpec(yaw, tolerance, yaws, draws)
  {
    if yaw < 0 || yaw > 360 {
      return [], TargetRejected;
    }
    var cameraTolerance := EffectiveTolerance(tolerance);
    if |yaws| < 2 {
      return [], Stalled;
    }
    var turnLeft := ShouldTurnLeft(yaws[0], yaw);
    var needsToChangeYaw := NeedsToChangeYaw(yaws[1], yaw, 360.0 * cameraTolerance);
    var key := if turnLeft then KeyD else KeyA;
    if !needsToChangeYaw {
      return [], Finished;
    }
    var polled;
    polled, status := PollUntilWithin(yaw, 360.0 * cameraTolerance, key, yaws[2..], draws);
    trace := [Press(key)] + polled;
  }

  /** The `while (needsToChangeYaw)` loop of `turnTo`, entered with the key held. */
  method PollUntilWithin(target: Yaw, threshold: real, key: KeyboardKey, yaws: seq<Yaw>, draws: seq<real>)
    returns (trace: seq<Event>, status: Status)
    ensures Run(trace, status) == Poll(target, threshold, key, yaws, draws)
  {
    trace, status := [], Finished;
    var needsToChangeYaw := true;
    var unread, undrawn := yaws, draws;
    while needsToChangeYaw
      invariant needsToChangeYaw ==>
        Poll(target, threshold, key, yaws, draws) ==
          Run(trace + Poll(target, threshold, key, unread, undrawn).trace,
              Poll(target, threshold, key, unread, undrawn).status)
      invariant !needsToChangeYaw ==> Poll(target, threshold, key, yaws, draws) == Run(trace, Finished)
      decreases |unread|
    {
      if unread == [] {
        return trace, Stalled;
      }
      var events, sampled, remaining;
      needsToChangeYaw, events, sampled, remaining := PollOnce(target, threshold, key, unread, undrawn);
      ghost var before := trace;
      trace := trace + events;
      if !sampled {
        return trace, Stalled;
      }
      if needsToChangeYaw {
        ghost var rest := Poll(target, threshold, key, unread[1..], remaining);
        assert trace + rest.trace == before + (events + rest.trace);
      }
      unread, undrawn := unread[1..], remaining;
    }
  }

  /**
   * One pass of the loop body on the next reading, `unread[0]`: recompute
   * the condition, release the key when it no longer holds, then pause,
   * leaving the draws the pause did not use. What the pass emits is the
   * start of what the rest of the loop emits.
   */
  method PollOnce(target: Yaw, threshold: real, key: KeyboardKey, unread: seq<Yaw>, undrawn: seq<real>)
    returns (needsToChangeYaw: bool, events: seq<Event>, sampled: bool, remaining: seq<real>)
    requires unread != []
    ensures needsToChangeYaw == NeedsToChangeYaw(unread[0], target, threshold)
    ensures sampled == Random.GaussianBetween(DelayMean, DelayMin, DelayMax, undrawn).Sampled?
    ensures !sampled ==> Poll(target, threshold, key, unread, undrawn) == Run(events, Stalled)
    ensures sampled && !needsToChangeYaw ==> Poll(target, threshold, key, unread, undrawn) == Run(events, Finished)
    ensures sampled && needsToChangeYaw ==>
      var rest := Poll(target, threshold, key, unread[1..], remaining);
      Poll(target, threshold, key, unread, undrawn) == Run(events + rest.trace, rest.status)
  {
    needsToChangeYaw := NeedsToChangeYaw(unread[0], target, threshold);
    events, remaining := [], undrawn;
    if !needsToChangeYaw {
      events := events + [Release(key)];
    }
    var pause := Random.LimitedGaussianBetween(DelayMean, DelayMin, DelayMax, undrawn);
    sampled := pause.Sampled?;
    if !sampled {
      PollStalls(target, threshold, key, unread, undrawn);
      return;
    }
    events := events + [Delay(pause.value)];
    remaining := undrawn[pause.used..];
    if needsToChangeYaw {
      PollContinues(target, threshold, key, unread, undrawn);
    } else {
      PollReleases(target, threshold, key, unread, undrawn);
    }
  }

  /** An iteration whose pause finds no draw to use ends the run there. */
  lemma PollStalls(target: Yaw, threshold: real, key: KeyboardKey, yaws: seq<Yaw>, draws: seq<real>)
    requires yaws != []
    requires !Random.GaussianBetween(DelayMean, DelayMin, DelayMax, draws).Sampled?
    ensures Poll(target, threshold, key, yaws, draws) ==
      Run(if NeedsToChangeYaw(yaws[0], target, threshold) then [] else [Release(key)], Stalled)
  {
  }

  /** An iteration that reads a yaw within the threshold releases, pauses and ends the loop. */
  lemma PollReleases(target: Yaw, threshold: real, key: KeyboardKey, yaws: seq<Yaw>, draws: seq<real>)
    requires yaws != [] && !NeedsToChangeYaw(yaws[0], target, threshold)
    requires Random.GaussianBetween(DelayMean, DelayMin, DelayMax, draws).Sampled?
    ensures Poll(target, threshold, key, yaws, draws) ==
      Run([Release(key), Delay(Random.GaussianBetween(DelayMean, DelayMin, DelayMax, draws).value)], Finished)
  {
  }

  /** An iteration that still needs to turn pauses and goes round again on the remaining inputs. */
  lemma PollContinues(target: Yaw, threshold: real, key: KeyboardKey, yaws: seq<Yaw>, draws: seq<real>)
    requires yaws != [] && NeedsToChangeYaw(yaws[0], target, threshold)
    requires Random.GaussianBetween(DelayMean, DelayMin, DelayMax, draws).Sampled?
    ensures var pause := Random.GaussianBetween(DelayMean, DelayMin, DelayMax, draws);
      var rest := Poll(target, threshold, key, yaws[1..], draws[pause.used..]);
      Poll(target, threshold, key, yaws, draws) == Run([Delay(pause.value)] + rest.trace, rest.status)
  {
  }

  /** `turnTo(yaw)`: the default tolerance. */
  method TurnToDefault(yaw: int, yaws: seq<Yaw>, draws: seq<real>)
    returns (trace: seq<Event>, status: Status)
    ensures Run(trace, status) == TurnToSpec(yaw, DefaultCameraTolerance, yaws, draws)
  {
    trace, status := TurnTo(yaw, DefaultCameraTolerance, yaws, draws);
  }

  // ---------------------------------------------------------------------
  // The polling loop

  /** Every pause lasts between 5 and 30 ms. */
  lemma {:induction false} PollDelaysBounded(target: Yaw, threshold: real, key: KeyboardKey, yaws: seq<Yaw>, draws: seq<real>)
    ensures forall e :: e in Poll(target, threshold, key, yaws, draws).trace && e.Delay? ==>
      DelayMin <= e.millis <= DelayMax
    decreases |yaws|
  {
    if yaws != [] {
      Random.GaussianBetweenInRange(DelayMean, DelayMin, DelayMax, draws);
      var pause := Random.GaussianBetween(DelayMean, DelayMin, DelayMax, draws);
      var t := Poll(target, threshold, key, yaws, draws).trace;
      if pause.Sampled? {
        if NeedsToChangeYaw(yaws[0], target, threshold) {
          PollContinues(target, threshold, key, yaws, draws);
          PollDelaysBounded(target, threshold, key, yaws[1..], draws[pause.used..]);
          var u := Poll(target, threshold, key, yaws[1..], draws[pause.used..]).trace;
          assert t == [Delay(pause.value)] + u;
        } else {
          PollReleases(target, threshold, key, yaws, draws);
        }
      }
    }
  }

  /**
   * The loop's trace is pauses and at most one release of the held key,
   * which comes last, or second to last followed by a final pause when the
   * loop finished; a finished loop always releases.
   */
  lemma {:induction false} PollShape(target: Yaw, threshold: real, key: KeyboardKey, yaws: seq<Yaw>, draws: seq<real>)
    ensures var p := Poll(target, threshold, key, yaws, draws);
      var t := p.trace;
      && p.status != TargetRejected
      && (forall i :: 0 <= i < |t| ==> t[i].Delay? || t[i] == Release(key))
      && (forall i :: 0 <= i < |t| && t[i].Release? ==>
            i == |t| - 1 || (i == |t| - 2 && p.status == Finished))
      && (p.status == Finished ==> |t| >= 2 && t[|t| - 2] == Release(key) && t[|t| - 1].Delay?)
    decreases |yaws|
  {
    if yaws != [] {
      var pause := Random.GaussianBetween(DelayMean, DelayMin, DelayMax, draws);
      if pause.Sampled? && NeedsToChangeYaw(yaws[0], target, threshold) {
        PollShape(target, threshold, key, yaws[1..], draws[pause.used..]);
        var u := Poll(target, threshold, key, yaws[1..], draws[pause.used..]).trace;
        var t := Poll(target, threshold, key, yaws, draws).trace;
        assert t == [Delay(pause.value)] + u;
        assert forall i :: 1 <= i < |t| ==> t[i] == u[i - 1];
      }
    }
  }

  /**
   * The key is released in the first iteration whose reading is within the
   * threshold, and never while the reading exceeds it: event i belongs to
   * reading i, and every pause before the release follows a reading that
   * still exceeded the threshold.
   */
  lemma {:induction false} PollReleaseTiming(target: Yaw, threshold: real, key: KeyboardKey, yaws: seq<Yaw>, draws: seq<real>)
    ensures var t := Poll(target, threshold, key, yaws, draws).trace;
      && (forall i :: 0 <= i < |t| && t[i].Release? ==>
            && i < |yaws|
            && !NeedsToChangeYaw(yaws[i], target, threshold)
            && forall j :: 0 <= j < i ==> NeedsToChangeYaw(yaws[j], target, threshold))
      && (forall i :: 0 <= i < |t| && t[i].Delay? && (i == 0 || !t[i - 1].Release?) ==>
            i < |yaws| && NeedsToChangeYaw(yaws[i], target, threshold))
    decreases |yaws|
  {
    if yaws != [] {
      var pause := Random.GaussianBetween(DelayMean, DelayMin, DelayMax, draws);
      var t := Poll(target, threshold, key, yaws, draws).trace;
      if pause.Sampled? && NeedsToChangeYaw(yaws[0], target, threshold) {
        PollReleaseTiming(target, threshold, key, yaws[1..], draws[pause.used..]);
        var u := Poll(target, threshold, key, yaws[1..], draws[pause.used..]).trace;
        assert t == [Delay(pause.value)] + u;
        assert forall i :: 1 <= i < |t| ==> t[i] == u[i - 1];
        assert forall i :: 1 <= i < |yaws| ==> yaws[i] == yaws[1..][i - 1];
      }
    }
  }

  // ---------------------------------------------------------------------
  // turnTo

  /** A target outside [0, 360] is refused before anything is submitted: no key event. */
  lemma TurnToRejectsOutOfRange(yaw: int, tolerance: real, yaws: seq<Yaw>, draws: seq<real>)
    ensures var r := TurnToSpec(yaw, tolerance, yaws, draws);
      && (r.status == TargetRejected <==> yaw < 0 || yaw > 360)
      && (r.status == TargetRejected ==> r.trace == [])
  {
    if 0 <= yaw <= 360 && |yaws| >= 2 {
      var threshold := 360.0 * EffectiveTolerance(tolerance);
      PollShape(yaw, threshold, DirectionKey(yaws[0], yaw), yaws[2..], draws);
    }
  }

  /**
   * The key is pressed at most once: first, and only when the second
   * reading is further from the target than the tolerance allows. KEY_D is
   * pressed when turning left, KEY_A otherwise.
   */
  lemma TurnToPressesOnce(yaw: int, tolerance: real, yaws: seq<Yaw>, draws: seq<real>)
    ensures var r := TurnToSpec(yaw, tolerance, yaws, draws);
      && (r.trace != [] <==>
            0 <= yaw <= 360 && |yaws| >= 2 &&
            NeedsToChangeYaw(yaws[1], yaw, 360.0 * EffectiveTolerance(tolerance)))
      && (r.trace != [] ==>
            && r.trace[0] == Press(if ShouldTurnLeft(yaws[0], yaw) then KeyD else KeyA)
            && forall i :: 1 <= i < |r.trace| ==> !r.trace[i].Press?)
  {
    var r := TurnToSpec(yaw, tolerance, yaws, draws);
    if r.trace != [] {
      var threshold := 360.0 * EffectiveTolerance(tolerance);
      var key := DirectionKey(yaws[0], yaw);
      PollShape(yaw, threshold, key, yaws[2..], draws);
      var t := Poll(yaw, threshold, key, yaws[2..], draws).trace;
      assert r.trace == [Press(key)] + t;
      forall i | 1 <= i < |r.trace| ensures !r.trace[i].Press? {
        assert r.trace[i] == t[i - 1];
        if |t| >= 2 && i - 1 < |t| - 2 {
          assert t[..|t| - 2][i - 1] == t[i - 1];
        } else if |t| >= 1 && i - 1 < |t| - 1 {
          assert t[..|t| - 1][i - 1] == t[i - 1];
        }
      }
    }
  }

  /**
   * A press is answered by exactly one release of the same key. When the
   * task finishes after pressing, its trace is the press, pauses, the
   * release and a final pause.
   */
  lemma TurnToReleasesPressedKey(yaw: int, tolerance: real, yaws: seq<Yaw>, draws: seq<real>)
    ensures var r := TurnToSpec(yaw, tolerance, yaws, draws);
      var t := r.trace;
      && (forall i :: 0 <= i < |t| && t[i].Release? ==> t[0].Press? && t[i].key == t[0].key)
      && (forall i, j :: 0 <= i < |t| && 0 <= j < |t| && t[i].Release? && t[j].Release? ==> i == j)
      && (r.status == Finished && t != [] ==>
            && |t| >= 3 && t[0].Press? && t[|t| - 2] == Release(t[0].key) && t[|t| - 1].Delay?
            && forall i :: 1 <= i < |t| - 2 ==> t[i].Delay?)
  {
    var r := TurnToSpec(yaw, tolerance, yaws, draws);
    if r.trace != [] {
      var threshold := 360.0 * EffectiveTolerance(tolerance);
      var key := DirectionKey(yaws[0], yaw);
      PollShape(yaw, threshold, key, yaws[2..], draws);
      var p := Poll(yaw, threshold, key, yaws[2..], draws);
      var t, u := r.trace, p.trace;
      assert t == [Press(key)] + u;
      assert forall i :: 1 <= i < |t| ==> t[i] == u[i - 1];
      if p.status == Finished {
        assert forall i :: 0 <= i < |u| - 2 ==> u[..|u| - 2][i] == u[i];
      } else {
        assert forall i :: 0 <= i < |u| - 1 ==> u[..|u| - 1][i] == u[i];
      }
    }
  }

  /**
   * The release happens in the first loop iteration whose reading is within
   * the threshold; every earlier iteration read a yaw that still exceeded it.
   * Event i >= 1 of the trace belongs to reading i + 1.
   */
  lemma TurnToReleaseTiming(yaw: int, tolerance: real, yaws: seq<Yaw>, draws: seq<real>)
    requires 0 <= yaw <= 360
    ensures var t := TurnToSpec(yaw, tolerance, yaws, draws).trace;
      var threshold := 360.0 * EffectiveTolerance(tolerance);
      forall i :: 0 <= i < |t| && t[i].Release? ==>
        && i + 1 < |yaws|
        && !NeedsToChangeYaw(yaws[i + 1], yaw, threshold)
        && forall j :: 1 <= j < i + 1 ==> NeedsToChangeYaw(yaws[j], yaw, threshold)
  {
    var r := TurnToSpec(yaw, tolerance, yaws, draws);
    if r.trace != [] {
      var threshold := 360.0 * EffectiveTolerance(tolerance);
      var key := DirectionKey(yaws[0], yaw);
      PollReleaseTiming(yaw, threshold, key, yaws[2..], draws);
      var u := Poll(yaw, threshold, key, yaws[2..], draws).trace;
      var t := r.trace;
      assert t == [Press(key)] + u;
      forall i | 0 <= i < |t| && t[i].Release?
        ensures i + 1 < |yaws| && !NeedsToChangeYaw(yaws[i + 1], yaw, threshold)
        ensures forall j :: 1 <= j < i + 1 ==> NeedsToChangeYaw(yaws[j], yaw, threshold)
      {
        assert u[i - 1] == t[i];
        assert yaws[2..][i - 1] == yaws[i + 1];
        forall j | 2 <= j < i + 1 ensures NeedsToChangeYaw(yaws[j], yaw, threshold) {
          assert yaws[2..][j - 2] == yaws[j];
        }
      }
    }
  }

  /** Every pause of `turnTo` lasts between 5 and 30 ms. */
  lemma TurnToDelaysBounded(yaw: int, tolerance: real, yaws: seq<Yaw>, draws: seq<real>)
    ensures forall e :: e in TurnToSpec(yaw, tolerance, yaws, draws).trace && e.Delay? ==>
      DelayMin <= e.millis <= DelayMax
  {
    var r := TurnToSpec(yaw, tolerance, yaws, draws);
    if 0 <= yaw <= 360 && |yaws| >= 2 {
      var threshold := 360.0 * EffectiveTolerance(tolerance);
      var key := DirectionKey(yaws[0], yaw);
      if NeedsToChangeYaw(yaws[1], yaw, threshold) {
        PollDelaysBounded(yaw, threshold, key, yaws[2..], draws);
        var u := Poll(yaw, threshold, key, yaws[2..], draws).trace;
        assert r.trace == [Press(key)] + u;
      }
    }
  }

  /**
   * From yaw 10 towards 20 at a 1.5% tolerance (5.4 degrees) the camera turns
   * left with KEY_D, and lets go once a reading is 5 degrees short.
   */
  lemma TurnToExample()
    ensures TurnToSpec(20, 0.015, [10, 10, 15], [20.0]) ==
      Run([Press(KeyD), Release(KeyD), Delay(20)], Finished)
  {
    assert Random.Rejection([20.0], 5.0, 30.0) == Random.Sampled(20, 1);
  }

  /**
   * The tolerance only counts short of the target: a camera that has turned
   * past the target by more than nothing but less than a full turn minus
   * the threshold is judged to need turning all over again.
   */
  lemma ToleranceIsOneSided(current: Yaw, target: Yaw, threshold: real)
    requires 0 < AngleDifference(target, current)
    requires (AngleDifference(target, current) as real) < 360.0 - threshold
    ensures NeedsToChangeYaw(current, target, threshold)
  {
    AngleDifferenceOpposite(current, target);
  }
}
