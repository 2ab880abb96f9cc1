# ORB recoil compensation — a Dafny model of the control loop

The program watches a rectangle of the screen while the fire button is held,
matches ORB features between a reference frame and each new frame, turns the
best matches into a raw displacement sample, smooths the sample history with
an exponential moving average, and converts the result into a mouse movement
through an adaptive gain: a fixed kick for the first five shots, then a
clamped estimate scaled by a dynamic factor that decays towards 1.0.

This project models the deterministic core of `main.py` with real numbers in
place of floats:

- `seqmath.dfy` (`SeqMath`): sum, minimum, maximum and mean of a sequence of reals.
- `smoothing.dfy` (`Smoothing`): `exponential_moving_average` (as a recursive
  definition and as the program's loop), its explicit weighted-sum form, and
  `smooth_movement` with the exceptions Python raises.
- `monitor.dfy` (`Monitor`): the capture-rectangle arithmetic of `get_monitor_area`,
  with the monitor's width and height as parameters.
- `displacement.dfy` (`Displacement`): the raw sample taken from the first 20
  correspondences (main.py lines 107-114). A correspondence carries its two
  keypoint positions and its descriptor distance.
- `recoil.dfy` (`Recoil`): the loop body of `control_recoil` as a pure `Step` over an
  explicit `State` (histories, shot counter, dynamic factor, reference frame); `Run`
  folds `Step` over a session; `Iterate` is one poll of the loop with the polled key
  and button states as parameters.

Behaviour of the code worth knowing, all of it modelled as written:

- The sample histories are never truncated: the code appends forever and
  smooths the whole history (`RunRecordsEverySample`).
- Smoothing is bypassed while the history holds at most 10 samples: the
  filtered value is then the newest raw sample itself.
- The steady-regime clamp is one-sided (`min` only): the vertical output is
  bounded above by 100 but not below (`SteadyClampIsOneSided`).
- The shot counter and the dynamic factor are never reset when the trigger is
  released; they carry over from one burst of fire to the next.

## Model

| member | source | states |
|---|---|---|
| Smoothing.ExponentialMovingAverage | main.py:29-42 | the program's loop returns 0 on an empty list, the only value on a one-element list, and in general the seeded recursive average `Ema` |
| Smoothing.EmaWithin | main.py:36-41 | for 0 <= alpha <= 1, samples drawn from [lo, hi] average to a value in [lo, hi] |
| Smoothing.EmaBetweenMinMax | main.py:36-41 | for 0 <= alpha <= 1 the average of a non-empty history lies between its minimum and maximum |
| Smoothing.EmaOfConstant | main.py:36-41 | a constant history averages to that constant, for any alpha |
| Smoothing.EmaIsWeightedSum | main.py:36-42 | the recursive average equals the explicit weighted sum in which the seed weighs (1 - alpha)^(n-1) and sample k > 0 weighs alpha * (1 - alpha)^(n-1-k) |
| Smoothing.WeightsSumToOne | main.py:36-41 | those weights sum to 1 for every history length and every alpha |
| Smoothing.WeightedPrefixAges | main.py:40 | each further sample multiplies every older weight by (1 - alpha) |
| Smoothing.SmoothMovement | main.py:61-64 | ZeroDivisionError exactly when the window is 0; IndexError exactly for an empty list and a positive window; the newest sample while the list is shorter than the window; otherwise a value between the minimum and maximum of the trailing window |
| Smoothing.SmoothMovementReadsOnlyWindow | main.py:64 | once the window is full only the last `window_size` samples affect the result |
| Smoothing.SmoothMovementOfConstant | main.py:64 | a full window of equal samples smooths to that sample |
| SeqMath.Mean | main.py:64 | the mean `sum(window) / len(window)` lies between the window's minimum and maximum |
| Monitor.MonitorArea | main.py:45-50 | top, left, width and height are the floors of 30% of the height, 25% of the width, half the width and half the height; for a non-negative screen all are non-negative and the rectangle lies inside the screen |
| Monitor.MonitorAreaHorizontallyCentred | main.py:48-50 | the right margin is at least the left margin and exceeds it by at most 2 pixels |
| Displacement.EstimateDisplacement | main.py:107-114 | the accumulation loop over `matches[:20]` yields the summed x and y deltas of the first min(20, n) matches, each divided by 100 |
| Displacement.RawSampleOfUniformShift | main.py:107-114 | if every match read moved by (dx, dy), the sample is (k * dx / 100, k * dy / 100) with k = min(20, n) |
| Displacement.RawSampleIgnoresWorseMatches | main.py:108 | matches after the 20th never change the sample |
| Displacement.TwentyEqualShifts | main.py:107-114 | 20 matches that each moved (2, 4) give the raw sample (0.4, 0.8) |
| Displacement.BestMatchDecidesFreshness | main.py:137 | in a best-first list the first match exceeds the distance threshold 12 exactly when every match does |
| Recoil.ApplyGain | main.py:124-135 | burst (fewer than 5 shots): vertical output -20 and factor 1.95; steady: vertical output is the minimum of 100 and filtered * 1.5 * factor; horizontal output is filtered * 0.3; the factor drops by 0.05, never below 1.0, and never rises in the steady regime |
| Recoil.Step | main.py:107-138 | the shot counter grows by one; each history grows by exactly the new sample (vertical inverted) with earlier entries unchanged; filtering yields the raw sample while the history holds at most 10 entries and the average of the whole history after; the vertical output and the next factor are ApplyGain's for the state's counter and factor and the step's filtered values, so in the burst -20 and 1.95 and in the steady regime min(filtered * 1.5 * factor, 100) and max(factor - 0.05, 1.0); the horizontal output is filtered * 0.3; the reference is replaced by the new frame iff the best match distance exceeds 12; validity is preserved |
| Recoil.StepFilteredWithinHistory | main.py:118-122 | the filtered values lie between the minimum and maximum of their histories in both branches |
| Recoil.FilteredWithinHistory | main.py:118-122 | either filtering branch (newest sample or average with alpha 0.2) stays inside the history's range |
| Recoil.FactorAfterShape | main.py:126-133 | the dynamic-factor schedule stays in [1.0, 2.0], never rises, and is at the floor exactly from the 24th shot on |
| Recoil.StepFollowsSchedule | main.py:124-135 | a step moves a state on schedule to the schedule's next factor, whatever the matches |
| Recoil.RunFollowsSchedule | main.py:124-135 | after any session of n shots the counter is n and the factor is the scheduled one |
| Recoil.RunRecordsEverySample | main.py:114-116 | after any session the histories hold exactly one sample per shot in firing order, the vertical one inverted; nothing is evicted |
| Recoil.TruncateToInt | main.py:140 | Python's `int()` on a real rounds toward zero: the result has the sign of the input and is less than 1 away from it |
| Recoil.Iterate | main.py:92-141 | the exit key ends the loop; the game key flips the toggle; a step runs iff the toggle is on and the trigger held, otherwise the pipeline state is untouched; the mouse receives the truncated horizontal and inverted vertical outputs |
| Recoil.BurstMovesMouseDownTwenty | main.py:124-140 | during the burst an active, firing iteration injects a downward relative movement of 20 whatever the matches |
| Recoil.SteadyClampIsOneSided | main.py:124-128 | in a session reached from the start, the first steady-regime shot (the sixth) can output a vertical value below -100: the clamp bounds only from above |
| Recoil.TwentyEqualShiftsStored | main.py:107-116 | the twenty-equal-shifts input stores 0.4 and -0.8 as the newest history entries |

## Left out

- ORB keypoint detection, descriptor computation and brute-force Hamming matching (main.py lines 26, 53-58): foreign OpenCV code; matches are an abstract best-first sequence of correspondences.
- Screen capture, grayscale conversion and the monitor lookup (lines 46, 87-89, 103-104): I/O and foreign libraries; frames are opaque values and the screen size is a parameter.
- Keyboard and mouse polling and mouse injection (lines 92-102, 140): OS interaction; the polled states are parameters of `Iterate` and the injected movement is its result.
- The `time.sleep` debounce after the game key and the 0.1 s rate limit (lines 100, 141): timing, not modelled.
- Console output (`print`): no effect on the state.
- IEEE-754 float rounding: all quantities are exact reals.
- Recoil.Step: requires at least one match. On an empty match list the program raises an IndexError at `matches[0]` (line 137) and the whole loop dies; that crash is not modelled.
- Smoothing.SmoothMovement: the window size is a natural number; Python's behaviour for a negative window (slicing from the front, dividing by a negative number) is not modelled.
