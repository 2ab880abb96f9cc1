/**
 The recoil-compensation loop of `control_recoil`, lifted out of its
 capture, matching and input plumbing: one pipeline step is a pure
 transition over an explicit state record, and one poll of the loop
 decides between exiting, idling and firing that step.
 */
module Recoil {
  import opened SeqMath
  import opened Smoothing
  import opened Displacement

  /** Gain on the smoothed vertical estimate in the steady regime. */
  const RecoilCompensationFactor: real := 1.5
  /** Scale applied to the horizontal estimate. */
  const HorizontalMovementScale: real := 0.3
  /** Fixed vertical compensation during the first shots. */
  const QuickStartCompensation: real := 20.0
  /** Smoothing factor of the exponential moving average. */
  const EmaAlpha: real := 0.2
  /** The dynamic factor a session starts with. */
  const InitialDynamicFactor: real := 2.0
  /** Upper clamp on the steady-regime vertical output. */
  const MaxYMovement: real := 100.0
  /** Histories up to this length bypass smoothing. */
  const SmoothingWindow: nat := 10
  /** Shots fired before this count are in the burst regime. */
  const BurstShots: nat := 5
  /** The dynamic factor is reset to this in the burst regime. */
  const BurstDynamicFactor: real := 2.0
  /** The dynamic factor drops by this much on every shot ... */
  const DecayStep: real := 0.05
  /** ... but never below this. */
  const FactorFloor: real := 1.0

  /** A grayscale snapshot of the capture rectangle. */
  datatype Frame = Frame(pixels: seq<seq<int>>)

  /** The loop's state: the raw-sample histories (vertical already
      inverted), the shot counter, the dynamic factor and the frame new
      frames are matched against. */
  datatype State = State(
    movementsX: seq<real>,
    movementsY: seq<real>,
    shotsFired: nat,
    dynamicFactor: real,
    reference: Frame)

  /** The state before the first shot, with the frame grabbed at start-up. */
  function Init(first: Frame): State
  {
    State([], [], 0, InitialDynamicFactor, first)
  }

  /** What every reachable state satisfies: one history entry per shot on
      each axis, and a dynamic factor between its floor and its start value. */
  predicate Valid(s: State)
  {
    && |s.movementsX| == s.shotsFired
    && |s.movementsY| == s.shotsFired
    && FactorFloor <= s.dynamicFactor <= InitialDynamicFactor
  }

  /** The output of the gain controller for one shot. */
  datatype Gain = Gain(smoothX: real, smoothY: real, dynamicFactor: real)

  /** The adaptive gain: a fixed vertical kick and a factor reset during the
      burst, a clamped, factor-scaled estimate afterwards; the horizontal
      estimate is only scaled; the factor then decays towards its floor. */
  function ApplyGain(shotsFired: nat, dynamicFactor: real, filteredX: real, filteredY: real): (g: Gain)
    ensures g.smoothX == filteredX * HorizontalMovementScale
    ensures g.dynamicFactor >= FactorFloor
    ensures shotsFired < BurstShots ==>
              g.smoothY == -QuickStartCompensation && g.dynamicFactor == BurstDynamicFactor - DecayStep
    ensures shotsFired >= BurstShots ==>
              var demanded := filteredY * RecoilCompensationFactor * dynamicFactor;
              && g.smoothY <= MaxYMovement
              && g.smoothY <= demanded
              && (g.smoothY == MaxYMovement || g.smoothY == demanded)
    ensures shotsFired >= BurstShots ==>
              && g.dynamicFactor >= dynamicFactor - DecayStep
              && (g.dynamicFactor == FactorFloor || g.dynamicFactor == dynamicFactor - DecayStep)
    ensures shotsFired >= BurstShots && dynamicFactor >= FactorFloor ==> g.dynamicFactor <= dynamicFactor
  {
    var (smoothY, factor) :=
      if shotsFired < BurstShots then (-QuickStartCompensation, BurstDynamicFactor)
      else
        var demanded := filteredY * RecoilCompensationFactor * dynamicFactor;
        (if demanded < MaxYMovement then demanded else MaxYMovement, dynamicFactor);
    var decayed := factor - DecayStep;
    Gain(filteredX * HorizontalMovementScale, smoothY, if decayed < FactorFloor then FactorFloor else decayed)
  }

  /** Everything one shot produces: the next state, the filtered estimates
      and the compensation before it is rounded for the mouse. */
  datatype StepResult = StepResult(
    next: State,
    filteredX: real,
    filteredY: real,
    smoothX: real,
    smoothY: real)

  /** The vertical raw sample as the histories store it: negated, so that
      upward motion of the image counts as positive recoil. */
  function Rise(matches: seq<Match>): real
  {
    -RawSample(matches).y
  }

  /** One shot of the loop: estimate the raw sample from the best-first
      correspondences between the reference and the new frame, append it to
      the histories, filter, apply the gain, count the shot, and keep the
      new frame as reference when even the best correspondence is stale. */
  function Step(s: State, matches: seq<Match>, current: Frame): (r: StepResult)
    requires |matches| > 0
    ensures r.next.shotsFired == s.shotsFired + 1
    ensures r.next.movementsX == s.movementsX + [RawSample(matches).x]
    ensures r.next.movementsY == s.movementsY + [Rise(matches)]
    ensures |r.next.movementsX| <= SmoothingWindow ==>
              r.filteredX == RawSample(matches).x && r.filteredY == Rise(matches)
    ensures |r.next.movementsX| > SmoothingWindow ==>
              r.filteredX == Ema(r.next.movementsX, EmaAlpha) && r.filteredY == Ema(r.next.movementsY, EmaAlpha)
    ensures r.smoothX == r.filteredX * HorizontalMovementScale
    ensures s.shotsFired < BurstShots ==>
              r.smoothY == -QuickStartCompensation && r.next.dynamicFactor == BurstDynamicFactor - DecayStep
    ensures s.shotsFired >= BurstShots ==> r.smoothY <= MaxYMovement
    ensures var g := ApplyGain(s.shotsFired, s.dynamicFactor, r.filteredX, r.filteredY);
            r.smoothY == g.smoothY && r.next.dynamicFactor == g.dynamicFactor
    ensures r.next.dynamicFactor >= FactorFloor
    ensures s.shotsFired >= BurstShots && s.dynamicFactor >= FactorFloor ==>
              r.next.dynamicFactor <= s.dynamicFactor
    ensures matches[0].distance > FreshnessThreshold ==> r.next.reference == current
    ensures matches[0].distance <= FreshnessThreshold ==> r.next.reference == s.reference
    ensures Valid(s) ==> Valid(r.next)
  {
    var sample := RawSample(matches);
    var historyX := s.movementsX + [sample.x];
    var historyY := s.movementsY + [Rise(matches)];
    var (filteredX, filteredY) :=
      if |historyX| > SmoothingWindow then (Ema(historyX, EmaAlpha), Ema(historyY, EmaAlpha))
      else (sample.x, Rise(matches));
    var g := ApplyGain(s.shotsFired, s.dynamicFactor, filteredX, filteredY);
    var reference := if matches[0].distance > FreshnessThreshold then current else s.reference;
    StepResult(
      State(historyX, historyY, s.shotsFired + 1, g.dynamicFactor, reference),
      filteredX, filteredY, g.smoothX, g.smoothY)
  }

  /** The filtered estimates never leave the range of their history, in
      either filtering branch. */
  lemma StepFilteredWithinHistory(s: State, matches: seq<Match>, current: Frame)
    requires |matches| > 0
    ensures var r := Step(s, matches, current);
            && Min(r.next.movementsX) <= r.filteredX <= Max(r.next.movementsX)
            && Min(r.next.movementsY) <= r.filteredY <= Max(r.next.movementsY)
  {
    var r := Step(s, matches, current);
    var sample := RawSample(matches);
    assert r.next.movementsX[|r.next.movementsX| - 1] == sample.x;
    assert r.next.movementsY[|r.next.movementsY| - 1] == Rise(matches);
    FilteredWithinHistory(r.next.movementsX, sample.x, r.filteredX);
    FilteredWithinHistory(r.next.movementsY, Rise(matches), r.filteredY);
  }

  /** Both filtering branches stay inside the history: the newest sample
      does trivially, the average does because alpha is in [0, 1]. */
  lemma FilteredWithinHistory(history: seq<real>, newest: real, filtered: real)
    requires |history| > 0 && history[|history| - 1] == newest
    requires filtered == newest || filtered == Ema(history, EmaAlpha)
    ensures Min(history) <= filtered <= Max(history)
  {
    EmaBetweenMinMax(history, EmaAlpha);
  }

  /** One trigger pull per entry: the correspondences found for it and the
      frame it captured. */
  datatype Shot = Shot(matches: seq<Match>, frame: Frame)

  predicate AllMatched(shots: seq<Shot>)
  {
    forall i :: 0 <= i < |shots| ==> |shots[i].matches| > 0
  }

  /** The state after firing `shots` in order, starting from `s`. */
  function Run(s: State, shots: seq<Shot>): State
    requires AllMatched(shots)
  {
    if |shots| == 0 then s
    else
      var last := shots[|shots| - 1];
      Step(Run(s, shots[..|shots| - 1]), last.matches, last.frame).next
  }

  /** The dynamic factor after `n` shots of a session: the start value, then
      the burst value less one decay step through the burst, then one decay
      step less per shot until the floor. */
  function FactorAfter(n: nat): real
  {
    if n == 0 then InitialDynamicFactor
    else if n <= BurstShots then BurstDynamicFactor - DecayStep
    else
      var decayed := BurstDynamicFactor - DecayStep * (n - BurstShots + 1) as real;
      if decayed < FactorFloor then FactorFloor else decayed
  }

  /** The schedule stays between the floor and the start value, never rises,
      and sits on the floor from the 24th shot on. */
  lemma FactorAfterShape(n: nat)
    ensures FactorFloor <= FactorAfter(n) <= InitialDynamicFactor
    ensures FactorAfter(n + 1) <= FactorAfter(n)
    ensures n >= 24 ==> FactorAfter(n) == FactorFloor
    ensures n < 24 ==> FactorAfter(n) > FactorFloor
  {
  }

  /** The dynamic factor of a state that has fired `n` shots on schedule
      moves on to the schedule's next value, whatever the correspondences. */
  lemma StepFollowsSchedule(s: State, matches: seq<Match>, current: Frame)
    requires |matches| > 0
    requires s.dynamicFactor == FactorAfter(s.shotsFired)
    ensures Step(s, matches, current).next.dynamicFactor == FactorAfter(s.shotsFired + 1)
  {
  }

  /** A session that fired `shots` has counted every shot and follows the
      dynamic-factor schedule, whatever the correspondences were. */
  lemma {:induction false} RunFollowsSchedule(first: Frame, shots: seq<Shot>)
    requires AllMatched(shots)
    ensures Run(Init(first), shots).shotsFired == |shots|
    ensures Run(Init(first), shots).dynamicFactor == FactorAfter(|shots|)
  {
    if |shots| > 0 {
      var prefix, last := shots[..|shots| - 1], shots[|shots| - 1];
      assert AllMatched(prefix);
      RunFollowsSchedule(first, prefix);
      StepFollowsSchedule(Run(Init(first), prefix), last.matches, last.frame);
    }
  }

  /** The last shot of a session appends its raw sample to the histories
      left by the shots before it. */
  lemma RunAppends(s: State, shots: seq<Shot>)
    requires AllMatched(shots) && |shots| > 0
    ensures var n := |shots|;
            var before, after := Run(s, shots[..n - 1]), Run(s, shots);
            && after.movementsX == before.movementsX + [RawSample(shots[n - 1].matches).x]
            && after.movementsY == before.movementsY + [Rise(shots[n - 1].matches)]
  {
  }

  /** The horizontal raw samples of `shots`, in firing order. */
  function SamplesX(shots: seq<Shot>): seq<real>
  {
    seq(|shots|, i requires 0 <= i < |shots| => RawSample(shots[i].matches).x)
  }

  /** The inverted vertical raw samples of `shots`, in firing order. */
  function SamplesY(shots: seq<Shot>): seq<real>
  {
    seq(|shots|, i requires 0 <= i < |shots| => Rise(shots[i].matches))
  }

  /** The sample sequences of `shots` extend those of its prefix by the
      last shot's sample. */
  lemma SamplesExtend(shots: seq<Shot>)
    requires |shots| > 0
    ensures var n := |shots|;
            && SamplesX(shots) == SamplesX(shots[..n - 1]) + [RawSample(shots[n - 1].matches).x]
            && SamplesY(shots) == SamplesY(shots[..n - 1]) + [Rise(shots[n - 1].matches)]
  {
  }

  /** A session that fired `shots` holds exactly one raw sample per shot, in
      firing order, the vertical one inverted; nothing is ever evicted. */
  lemma {:induction false} RunRecordsEverySample(first: Frame, shots: seq<Shot>)
    requires AllMatched(shots)
    ensures Run(Init(first), shots).movementsX == SamplesX(shots)
    ensures Run(Init(first), shots).movementsY == SamplesY(shots)
  {
    if |shots| > 0 {
      var n := |shots|;
      var prefix, last := shots[..n - 1], shots[n - 1];
      assert AllMatched(prefix);
      RunRecordsEverySample(first, prefix);
      RunAppends(Init(first), shots);
      SamplesExtend(shots);
    }
  }

  /** Python's int() on a float: rounds toward zero. */
  function TruncateToInt(x: real): (n: int)
    ensures 0.0 <= x ==> 0 <= n && n as real <= x < n as real + 1.0
    ensures x < 0.0 ==> n <= 0 && n as real - 1.0 < x <= n as real
  {
    if 0.0 <= x then x.Floor else -((-x).Floor)
  }

  /** The polled inputs of one loop iteration. */
  datatype Poll = Poll(exitPressed: bool, gameKeyPressed: bool, fireHeld: bool)

  /** The whole loop state: the on/off toggle and the pipeline state. */
  datatype Session = Session(gameActive: bool, pipeline: State)

  /** What one iteration does: leave the loop, do nothing more this time,
      or fire a step and move the mouse by the given whole pixels. */
  datatype Tick =
    | Exit
    | Idle(session: Session)
    | Fired(session: Session, mouseX: int, mouseY: int)

  /** One iteration of the polling loop: exit if asked, flip the toggle if
      its key is down, and run a step only while active with the trigger
      held. The mouse receives the compensation truncated toward zero, with
      the vertical axis inverted back to screen orientation. */
  function Iterate(session: Session, poll: Poll, matches: seq<Match>, current: Frame): (r: Tick)
    requires !poll.exitPressed && poll.fireHeld && session.gameActive != poll.gameKeyPressed ==> |matches| > 0
    ensures r.Exit? <==> poll.exitPressed
    ensures !r.Exit? ==> r.session.gameActive == (session.gameActive != poll.gameKeyPressed)
    ensures r.Fired? <==> !poll.exitPressed && poll.fireHeld && r.session.gameActive
    ensures r.Idle? ==> r.session.pipeline == session.pipeline
    ensures r.Fired? ==>
              var step := Step(session.pipeline, matches, current);
              && r.session.pipeline == step.next
              && r.mouseX == TruncateToInt(step.smoothX)
              && r.mouseY == TruncateToInt(-step.smoothY)
  {
    if poll.exitPressed then Exit
    else
      var active := session.gameActive != poll.gameKeyPressed;
      if poll.fireHeld && active then
        var step := Step(session.pipeline, matches, current);
        Fired(Session(active, step.next), TruncateToInt(step.smoothX), TruncateToInt(-step.smoothY))
      else Idle(Session(active, session.pipeline))
  }

  /** During the burst the injected relative movement is 20 downward,
      whatever the correspondences say. */
  lemma BurstMovesMouseDownTwenty(session: Session, poll: Poll, matches: seq<Match>, current: Frame)
    requires !poll.exitPressed && poll.fireHeld && session.gameActive != poll.gameKeyPressed
    requires |matches| > 0
    requires session.pipeline.shotsFired < BurstShots
    ensures Iterate(session, poll, matches, current).Fired?
    ensures Iterate(session, poll, matches, current).mouseY == 20
  {
  }

  /** The steady-regime clamp is one-sided: after a session of five shots
      whose features all slid 10000 pixels down, the sixth shot's vertical
      output is far below -MaxYMovement. */
  lemma SteadyClampIsOneSided(first: Frame)
    ensures var m := [Match(Point(0.0, 0.0), Point(0.0, 10000.0), 0.0)];
            var s := Run(Init(first), seq(BurstShots, _ => Shot(m, first)));
            Step(s, m, first).smoothY < -MaxYMovement
  {
    var m := [Match(Point(0.0, 0.0), Point(0.0, 10000.0), 0.0)];
    var shots := seq(BurstShots, _ => Shot(m, first));
    RunFollowsSchedule(first, shots);
    RunRecordsEverySample(first, shots);
    RawSampleOfUniformShift(m, 0.0, 10000.0);
    var s := Run(Init(first), shots);
    assert |s.movementsX| == BurstShots;
    assert s.shotsFired == BurstShots && s.dynamicFactor == BurstDynamicFactor - DecayStep;
    assert Step(s, m, first).filteredY == -100.0;
  }

  /** The twenty-equal-shifts scenario stores (0.4, -0.8) as the newest
      history entries. */
  lemma TwentyEqualShiftsStored(s: State, current: Frame)
    ensures var m := seq(20, _ => Match(Point(0.0, 0.0), Point(2.0, 4.0), 0.0));
            var next := Step(s, m, current).next;
            next.movementsX[|next.movementsX| - 1] == 0.4 && next.movementsY[|next.movementsY| - 1] == -0.8
  {
    TwentyEqualShifts();
  }
}
