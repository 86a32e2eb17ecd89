# Camera yaw control, bounded random timing and object queries

A Dafny model of the logic at the core of a game-client automation package:

- **Camera** (`camera.dfy`). The yaw controller `turnTo`:
  - It checks that the target yaw lies in [0, 360].
  - It raises the tolerance to the 1.5% floor.
  - It picks KEY_D to turn left and KEY_A to turn right.
  - If the camera is further from the target than `360 * tolerance`, it presses the key once.
  - It then polls the yaw. It releases the key in the first poll that is within the threshold, and pauses 5..30 ms after every poll.

  The submitted task runs inline. The yaw readings and the gaussian draws behind the pauses are input sequences. The effects are a trace of `Press`, `Release` and `Delay` events, paired with a status: `TargetRejected`, `Finished`, or `Stalled` when the input sequences run out. `TurnTo` and its loop `PollUntilWithin` are methods proved equal to the functions `TurnToSpec` and `Poll`. The lemmas state the controller's properties about those functions.
- **Random** (`random.dfy`). `getInt` and the two `getLimitedGaussian` rejection samplers, with their argument checks, in Java's 32-bit arithmetic. Each exception carries a reason, and its `Message` is the table of exception texts: the two that `getLimitedGaussian(mean, min, max)` throws, and the JDK's `nextInt` text for a bound that is not positive. The do-while loop `DrawUntilWithin` is proved equal to the function `Rejection`.
- **BotMath** (`bot_math.dfy`). `normalise` over the reals, and the wrap of a bearing onto [0, 360) from `getAngleBetween`.
- **GameObjectQuery** (`game_object_query.dfy`). The `actions` and `names` filters. Each filter's search loop is a method proved against its specification. The builder is a class whose `predicate` is the sequence of filters combined with `and`.
- **KeyboardKeys** (`keyboard_key.dfy`). The four key constants with their labels and AWT key codes.
- **JavaInt** (`java_int.dfy`). Java `int` wrap-around, the truncating `%`, and the saturating `(int)` cast of a `double`. **Wrappers** (`wrappers.dfy`). `Option` and `Result`.

Facts about the code that the model follows:

- `turnTo` turns the yaw only, and submits one task to a single-thread executor.
- A target outside [0, 360] is logged and ignored. No exception is thrown.
- The pause after every poll is `delay(20, 5, 30)`: gaussian around 20 ms, limited to [5, 30].
- "Turning left" presses KEY_D and "turning right" presses KEY_A.
- The key is not released in a `finally`: an exception thrown out of the loop body leaves it held. An interrupt does not: `Execution.delay` catches `InterruptedException` and returns, so an interrupt only shortens one pause and the loop goes on to the release. In the model, a run cut short is one that ends `Stalled`.

## Model

| member | source | states |
|---|---|---|
| `Camera.AngleDifference` | runelite-client/src/main/java/net/runelite/client/automation/Camera.java:145-147 | the directed difference lies in [0, 360) and is 0 from a yaw to itself |
| `Camera.AngleDifferenceIsDirected` | runelite-client/src/main/java/net/runelite/client/automation/Camera.java:145-147 | on yaws in [0, 360] Java's `%` gives the mathematical `(t - s + 360) mod 360`, and turning the start by the difference reaches the target modulo 360 |
| `Camera.AngleDifferenceOpposite` | runelite-client/src/main/java/net/runelite/client/automation/Camera.java:145-147 | the two directed differences between distinct directions add up to 360; between equal directions both are 0 |
| `Camera.ShouldTurnLeft` | runelite-client/src/main/java/net/runelite/client/automation/Camera.java:134-136 | turn left exactly when the target lies less than half a turn ahead in the direction of increasing angle; its property is `ShouldTurnLeftIsShorterWay` |
| `Camera.ShouldTurnLeftIsShorterWay` | runelite-client/src/main/java/net/runelite/client/automation/Camera.java:134-136 | `shouldTurnLeft` (difference < 180) holds exactly when the directed way from start to target is shorter than the way back |
| `Camera.EffectiveTolerance` | runelite-client/src/main/java/net/runelite/client/automation/Camera.java:79-80 | the tolerance used is at least the 1.5% floor and at least the caller's, and is one of the two |
| `Camera.NeedsToChangeYaw` | runelite-client/src/main/java/net/runelite/client/automation/Camera.java:85 | the camera must still turn while the directed difference to the target exceeds `360 * cameraTolerance`; `ToleranceIsOneSided` shows the test is one-sided |
| `Camera.DirectionKey` | runelite-client/src/main/java/net/runelite/client/automation/Camera.java:87-89 | KEY_D when turning left and KEY_A otherwise |
| `Camera.TurnToSpec` | runelite-client/src/main/java/net/runelite/client/automation/Camera.java:72-124 | the specification of `turnTo`: rejection, the press decided by the second reading, then `Poll`; its properties are the `TurnTo…` lemmas |
| `Camera.Poll` | runelite-client/src/main/java/net/runelite/client/automation/Camera.java:105-119 | the specification of the polling loop; its properties are the `Poll…` lemmas |
| `Camera.TurnTo` | runelite-client/src/main/java/net/runelite/client/automation/Camera.java:72-124 | the method's trace and status are exactly those of `TurnToSpec` on the same target, tolerance, readings and draws |
| `Camera.TurnToDefault` | runelite-client/src/main/java/net/runelite/client/automation/Camera.java:60-62 | `turnTo(yaw)` behaves as `turnTo(yaw, 0.015)` |
| `Camera.PollUntilWithin` | runelite-client/src/main/java/net/runelite/client/automation/Camera.java:105-119 | the `while (needsToChangeYaw)` loop yields exactly the trace and status of `Poll` |
| `Camera.PollOnce` | runelite-client/src/main/java/net/runelite/client/automation/Camera.java:106-118 | one pass of the loop body: it recomputes the condition from the next reading, draws the pause, and emits the events with which `Poll` on the remaining inputs begins |
| `Camera.PollStalls` | runelite-client/src/main/java/net/runelite/client/automation/Camera.java:106-118 | one unfolding of `Poll`'s definition, used to prove `PollOnce`: an iteration whose pause cannot be drawn ends the run after its release, if any |
| `Camera.PollReleases` | runelite-client/src/main/java/net/runelite/client/automation/Camera.java:106-118 | one unfolding of `Poll`'s definition, used to prove `PollOnce`: an iteration within the threshold releases, pauses and ends the loop |
| `Camera.PollContinues` | runelite-client/src/main/java/net/runelite/client/automation/Camera.java:105-119 | one unfolding of `Poll`'s definition, used to prove `PollOnce`: an iteration that still needs turning pauses and continues on the remaining readings and draws |
| `Camera.PollDelaysBounded` | runelite-client/src/main/java/net/runelite/client/automation/Camera.java:118 | every pause of the loop lasts between 5 and 30 ms |
| `Camera.PollShape` | runelite-client/src/main/java/net/runelite/client/automation/Camera.java:105-119 | the loop emits only pauses and releases of the held key; a release is last, or second to last before the final pause of a finished loop; a finished loop always released |
| `Camera.PollReleaseTiming` | runelite-client/src/main/java/net/runelite/client/automation/Camera.java:105-117 | a release happens at the first reading within the threshold and never while the reading exceeds it; every pause not after a release follows a reading that exceeded it |
| `Camera.TurnToRejectsOutOfRange` | runelite-client/src/main/java/net/runelite/client/automation/Camera.java:74-77 | the run is rejected exactly when the target is outside [0, 360], and a rejected run has no events |
| `Camera.TurnToPressesOnce` | runelite-client/src/main/java/net/runelite/client/automation/Camera.java:84-103 | there are events exactly when the target is valid and the second reading exceeds `360 * cameraTolerance`, the tolerance raised to the 1.5% floor; the first event is the press of KEY_D when turning left and KEY_A otherwise; no later event is a press |
| `Camera.TurnToReleasesPressedKey` | runelite-client/src/main/java/net/runelite/client/automation/Camera.java:87-119 | every release releases the pressed key; there is at most one release; a finished run that pressed is press, pauses, release, pause |
| `Camera.TurnToReleaseTiming` | runelite-client/src/main/java/net/runelite/client/automation/Camera.java:85-117 | the release at event `i` follows reading `i + 1`, the first reading within the threshold; every reading from the second one up to it exceeded the threshold (the first reading only picks the direction) |
| `Camera.TurnToDelaysBounded` | runelite-client/src/main/java/net/runelite/client/automation/Camera.java:118 | every pause of `turnTo` lasts between 5 and 30 ms |
| `Camera.TurnToExample` | runelite-client/src/main/java/net/runelite/client/automation/Camera.java:72-119 | from yaw 10 to 20 at tolerance 0.015: press KEY_D, release KEY_D at a reading of 15, pause |
| `Camera.ToleranceIsOneSided` | runelite-client/src/main/java/net/runelite/client/automation/Camera.java:85 | a camera that overshot the target by less than a full turn minus the threshold still needs to turn |
| `Random.NextInt` | runelite-client/src/main/java/net/runelite/client/automation/util/Random.java:33 | `nextInt(bound)` lies in [0, bound) |
| `Random.GetInt` | runelite-client/src/main/java/net/runelite/client/automation/util/Random.java:27-34 | equal bounds give `max`; `min < max` without overflow gives a value in [min, max); a `max - min` that is negative without overflow, or that overflows above `int`, wraps to a non-positive bound and throws "bound must be positive" |
| `Random.Rejection` | runelite-client/src/main/java/net/runelite/client/automation/util/Random.java:54-56 | the do-while loop never refuses its arguments, and a sample takes at least one draw and no more than are supplied |
| `Random.Within` | runelite-client/src/main/java/net/runelite/client/automation/util/Random.java:88 | the exit test of both rejection loops: the draw is neither above the upper bound nor below the lower |
| `Random.RejectionAcceptsFirstWithin` | runelite-client/src/main/java/net/runelite/client/automation/util/Random.java:54-58 | a sample is the truncation of the first draw in range, and every earlier draw was out of range; when no sample is produced, every draw was out of range |
| `Random.GaussianBetween` | runelite-client/src/main/java/net/runelite/client/automation/util/Random.java:71-91 | `min >= max` throws the min/max message and a mean outside [min, max] the mean message, both before any draw; otherwise it samples by rejection over [min, max] |
| `Random.RandomException.Message` | runelite-client/src/main/java/net/runelite/client/automation/util/Random.java:73-78 | the text of each exception: the two texts at lines 74 and 77, and the JDK's "bound must be positive" |
| `Random.GaussianAround` | runelite-client/src/main/java/net/runelite/client/automation/util/Random.java:45-59 | `getLimitedGaussian(mean, maxDeviation)`: rejection over the bounds `mean - maxDeviation` and `mean + maxDeviation` computed in 32-bit arithmetic; its properties are `GaussianAroundInRange` and `NegativeDeviationNeverSamples` |
| `Random.GaussianBetweenInRange` | runelite-client/src/main/java/net/runelite/client/automation/util/Random.java:86-90 | a sampled result lies in [min, max] |
| `Random.GaussianAroundInRange` | runelite-client/src/main/java/net/runelite/client/automation/util/Random.java:54-58 | without overflow, a sampled result lies within `maxDeviation` of the mean |
| `Random.NegativeDeviationNeverSamples` | runelite-client/src/main/java/net/runelite/client/automation/util/Random.java:56 | with a negative deviation, and when neither bound overflows an `int`, no draw is ever accepted |
| `Random.DrawUntilWithin` | runelite-client/src/main/java/net/runelite/client/automation/util/Random.java:86-90 | the do-while loop returns exactly what `Rejection` specifies |
| `Random.SameFirstAccepted` | runelite-client/src/main/java/net/runelite/client/automation/util/Random.java:86-90 | a loop exit at the first draw in range gives exactly what `Rejection` gives |
| `Random.AllRejectedExhausts` | runelite-client/src/main/java/net/runelite/client/automation/util/Random.java:86-88 | when every draw is out of range, `Rejection` produces no sample |
| `Random.LimitedGaussian` | runelite-client/src/main/java/net/runelite/client/automation/util/Random.java:45-59 | `getLimitedGaussian(mean, maxDeviation)` samples over the range its 32-bit bounds give |
| `Random.LimitedGaussianBetween` | runelite-client/src/main/java/net/runelite/client/automation/util/Random.java:71-91 | `getLimitedGaussian(mean, min, max)` checks its arguments and samples as `GaussianBetween` states |
| `JavaInt.Rem` | runelite-client/src/main/java/net/runelite/client/automation/Camera.java:146 | Java `%` keeps the dividend's sign, lies strictly within the divisor, and leaves a multiple of the divisor |
| `JavaInt.Wrap` | runelite-client/src/main/java/net/runelite/client/automation/util/Random.java:33 | the `int` Java's `+` and `-` give differs from the mathematical value by a multiple of 2^32, and equals it when that value fits in an `int` |
| `JavaInt.DoubleToInt` | runelite-client/src/main/java/net/runelite/client/automation/util/Random.java:58 | `(int)` rounds toward zero and saturates: the result lies between 0 and the value, within 1 of it when the value lies strictly inside the `int` range, and `MIN_VALUE` or `MAX_VALUE` beyond it |
| `JavaInt.TruncationStaysWithin` | runelite-client/src/main/java/net/runelite/client/automation/util/Random.java:90 | a value between two `int` bounds truncates to an `int` between them |
| `BotMath.Normalise` | runelite-client/src/main/java/net/runelite/client/automation/util/calculations/BotMath.java:19-21 | the result times the range's width is the value's offset from `min` |
| `BotMath.NormaliseEnds` | runelite-client/src/main/java/net/runelite/client/automation/util/calculations/BotMath.java:19-21 | `min` normalises to 0 and `max` to 1 |
| `BotMath.NormaliseMidpoint` | runelite-client/src/main/java/net/runelite/client/automation/util/calculations/BotMath.java:19-21 | the midpoint normalises to one half |
| `BotMath.NormaliseWithinUnit` | runelite-client/src/main/java/net/runelite/client/automation/util/calculations/BotMath.java:11-21 | a value in an increasing range normalises into [0, 1] |
| `BotMath.NormaliseIncreasing` | runelite-client/src/main/java/net/runelite/client/automation/util/calculations/BotMath.java:20 | over an increasing range normalisation is strictly increasing |
| `BotMath.WrapNonNegative` | runelite-client/src/main/java/net/runelite/client/automation/util/calculations/BotMath.java:53-55 | a non-negative bearing wraps to `d mod 360` |
| `BotMath.WrapNegative` | runelite-client/src/main/java/net/runelite/client/automation/util/calculations/BotMath.java:57 | a bearing in [-360, 0) wraps to `(d + 360) mod 360` |
| `BotMath.AngleBetweenNormalised` | runelite-client/src/main/java/net/runelite/client/automation/util/calculations/BotMath.java:51-57 | for every `atan2` angle in [-180, 180] the result lies in [0, 360) and is congruent to the angle minus 90 |
| `BotMath.WrapDegrees` | runelite-client/src/main/java/net/runelite/client/automation/util/calculations/BotMath.java:53-57 | the two-branch wrap of a bearing with Java's `%`; its properties are `WrapNonNegative`, `WrapNegative` and `WrapBelowFullTurn` |
| `BotMath.AngleBetween` | runelite-client/src/main/java/net/runelite/client/automation/util/calculations/BotMath.java:51-57 | the truncated `atan2` angle turned by -90 degrees and wrapped; its property is `AngleBetweenNormalised` |
| `BotMath.WrapBelowFullTurn` | runelite-client/src/main/java/net/runelite/client/automation/util/calculations/BotMath.java:53-57 | a bearing below -360 wraps into (-360, 0], and to a negative result exactly when it is not a whole number of turns (-720 wraps to 0) |
| `GameObjectQuery.MatchActions` | runelite-client/src/main/java/net/runelite/client/automation/query/GameObjectQueryBuilder.java:27-38 | the nested search accepts exactly when some non-null requested action equals some offered action |
| `GameObjectQuery.NoRequestedActionMatchesNothing` | runelite-client/src/main/java/net/runelite/client/automation/query/GameObjectQueryBuilder.java:30-37 | `actions()` with no arguments accepts no object |
| `GameObjectQuery.NullActionIgnored` | runelite-client/src/main/java/net/runelite/client/automation/query/GameObjectQueryBuilder.java:30-32 | a null inserted at any position among the offered actions, or among the requested ones, changes nothing about what the filter accepts |
| `GameObjectQuery.ActionsMatchMonotone` | runelite-client/src/main/java/net/runelite/client/automation/query/GameObjectQueryBuilder.java:30-36 | requesting more actions only widens what is accepted |
| `GameObjectQuery.MatchNames` | runelite-client/src/main/java/net/runelite/client/automation/query/GameObjectQueryBuilder.java:50-59 | the search loop returns exactly the outcome `NamesMatch` specifies, exception included |
| `GameObjectQuery.NamesMatchAccepts` | runelite-client/src/main/java/net/runelite/client/automation/query/GameObjectQueryBuilder.java:53-56 | the filter accepts exactly when a requested name equals the object's name with no null requested name before it |
| `GameObjectQuery.NamesMatchThrows` | runelite-client/src/main/java/net/runelite/client/automation/query/GameObjectQueryBuilder.java:53-54 | the filter throws a NullPointerException exactly when a null requested name comes before any match |
| `GameObjectQuery.NamesMatchRejects` | runelite-client/src/main/java/net/runelite/client/automation/query/GameObjectQueryBuilder.java:53-58 | the filter rejects exactly when every requested name is non-null and differs from the object's name |
| `GameObjectQuery.NamesMatchWithoutNulls` | runelite-client/src/main/java/net/runelite/client/automation/query/GameObjectQueryBuilder.java:50-58 | with no null requested names the filter accepts exactly when the object's name is among them |
| `GameObjectQuery.NullNameNeverMatches` | runelite-client/src/main/java/net/runelite/client/automation/query/GameObjectQueryBuilder.java:54 | an object with a null name passes no names filter |
| `GameObjectQuery.EvaluateIsConjunction` | runelite-client/src/main/java/net/runelite/client/automation/query/GameObjectQueryBuilder.java:26-62 | the chained predicate accepts exactly when every filter accepts; otherwise its outcome is that of the first filter that does not accept |
| `GameObjectQuery.ActionFiltersNeverThrow` | runelite-client/src/main/java/net/runelite/client/automation/query/GameObjectQueryBuilder.java:26-41 | a predicate built only from `actions` filters never throws |
| `GameObjectQuery.ActionsMatch` | runelite-client/src/main/java/net/runelite/client/automation/query/GameObjectQueryBuilder.java:27-38 | the specification of the actions filter: some non-null requested action equals some offered action |
| `GameObjectQuery.NamesMatch` | runelite-client/src/main/java/net/runelite/client/automation/query/GameObjectQueryBuilder.java:50-58 | the specification of the names filter, scanning the requested names in order; its properties are the `NamesMatch…` lemmas |
| `GameObjectQuery.Apply` | runelite-client/src/main/java/net/runelite/client/automation/query/GameObjectQueryBuilder.java:27-59 | one filter applied to an object's definition |
| `GameObjectQuery.Evaluate` | runelite-client/src/main/java/net/runelite/client/automation/query/GameObjectQueryBuilder.java:27-59 | the filters combined by the inherited `and`, left to right with short-circuit; its property is `EvaluateIsConjunction` |
| `GameObjectQuery.GameObjectQueryBuilder.Accepts` | runelite-client/src/main/java/net/runelite/client/automation/query/GameObjectQueryBuilder.java:27-59 | the builder's predicate applied to an object's definition, looked up by id |
| `GameObjectQuery.GameObjectQueryBuilder.constructor` | runelite-client/src/main/java/net/runelite/client/automation/query/GameObjectQueryBuilder.java:12-14 | a new builder has no filters and keeps the client's definition lookup |
| `GameObjectQuery.GameObjectQueryBuilder.Actions` | runelite-client/src/main/java/net/runelite/client/automation/query/GameObjectQueryBuilder.java:26-41 | appends the actions filter and returns the same builder; afterwards an object is accepted exactly when the old predicate accepted it and the new filter accepts it, and an earlier exception or rejection is kept |
| `GameObjectQuery.GameObjectQueryBuilder.Names` | runelite-client/src/main/java/net/runelite/client/automation/query/GameObjectQueryBuilder.java:49-62 | appends the names filter and returns the same builder; afterwards an object is accepted exactly when the old predicate accepted it and the new filter accepts it, and an earlier exception or rejection is kept |
| `GameObjectQuery.GameObjectQueryBuilder.AddedFilterRunsLast` | runelite-client/src/main/java/net/runelite/client/automation/query/GameObjectQueryBuilder.java:26-62 | after a filter is added, the existing predicate runs first and the new filter only when it accepts |
| `KeyboardKeys.KeyboardKey.KeyCode` | runelite-client/src/main/java/net/runelite/client/automation/input/KeyboardKey.java:4-17 | every key code is an arrow-key code in 37..40 |
| `KeyboardKeys.KeyboardKey.Key` | runelite-client/src/main/java/net/runelite/client/automation/input/KeyboardKey.java:4-7 | every label is a single letter |
| `KeyboardKeys.KeyboardKey.ToString` | runelite-client/src/main/java/net/runelite/client/automation/input/KeyboardKey.java:18 | the text is "KEY_" followed by the key's one-letter label |
| `KeyboardKeys.KeyCodesDistinct` | runelite-client/src/main/java/net/runelite/client/automation/input/KeyboardKey.java:4-7 | two keys share a code exactly when they are the same key |
| `KeyboardKeys.KeyCodesCoverArrows` | runelite-client/src/main/java/net/runelite/client/automation/input/KeyboardKey.java:4-7 | every code in 37..40 belongs to some key |
| `KeyboardKeys.ToStringDistinct` | runelite-client/src/main/java/net/runelite/client/automation/input/KeyboardKey.java:4-18 | the texts tell the keys apart, and they are KEY_W, KEY_A, KEY_S and KEY_D |

## Left out

- Key dispatch (`Keyboard.pressKey`, `Keyboard.releaseKey`) is I/O: each call is a `Press` or `Release` event carrying the key. Every event would carry the key's code, and `KeyCodesDistinct` shows the code identifies the key.
- `Execution.delay` sleeps the thread and swallows `InterruptedException`. A pause is a `Delay(n)` event. Its `n` always lies in [5, 30], so the `length <= 0` early return never applies.
- The single-thread executor and overlapping `turnTo` calls are concurrency and are not modelled. The submitted task runs inline and its returned value is not modelled.
- `Camera.getYaw` reads the host client, so yaw readings are an input sequence of whole angles in [0, 360]. The read at Camera.java:111 only feeds a log line and takes no reading in the model.
- Logging (`log.info`) is not modelled.
- Camera.TurnTo: the input sequences are finite, so a run ends `Stalled` when the readings or the gaussian draws run out. The source would go on reading and drawing, and need not terminate.
- Camera.TurnTo: the tolerance is a real number, not a `double`. Its NaN and infinite values and the rounding of `360 * cameraTolerance` are not modelled.
- Random.GetInt: `nextInt(bound)` is modelled as `floor(u * bound)` for a uniform draw `u` in [0, 1) supplied as input. The JDK's bit-level algorithm and the distribution are not modelled, only the range.
- Random.LimitedGaussian: the gaussian draws are an input sequence of reals. `nextGaussian`, the standard-deviation formulas (Random.java:48, 80) and every statistical claim (how likely a draw is accepted, the mean of the results) are left out. Draws are reals, not `double`s.
- BotMath.Normalise: requires `max != min`. The Java code accepts equal bounds and returns NaN or an infinity, which reals cannot express. Doubles are modelled as reals, so rounding is not modelled: in Java `normalise(0.4, 0.1, 0.7)` is 0.4999999999999999, and `NormaliseMidpoint` holds only of exact arithmetic. A `max - min` that overflows to infinity is not modelled either.
- Camera.DefaultCameraTolerance: `Constants.DEFAULT_CAMERA_TOLERANCE` is not part of this model. Its value 0.015 is taken from the doc comment of `turnTo(int, double)` (Camera.java:68-70).
- `BotMath.round` relies on `Double.toString` and `BigDecimal` rounding of binary floating point, and is not modelled.
- The `atan2`/`toDegrees` part of `getAngleBetween` is floating-point trigonometry over world points. The model starts from the truncated angle in degrees.
- GameObjectQuery.GameObjectQueryBuilder.Actions: the inherited `predicate` field, `and` and `result` belong to the client library's query base class, which is not part of this model. The predicate is modelled as the sequence of filters, starting from one that accepts everything, with `and` testing the existing predicate first and short-circuiting.
- GameObjectQuery.GameObjectQueryBuilder.Actions: the lambdas capture the varargs arrays by reference, so a caller that later changes an array changes the filter. The model takes the arrays as values.
- `results()` and `client.getObjectDefinition` are host calls. Definitions come from a function supplied to the builder. A null definition, a null action array and a null varargs array are not modelled.
- `Players.java` and `GameObjects.java` are one-line accessors over the client and are not part of this model.
