/** The progress bar widget: a one-way visibility flag set by a viewport
    observer, an effect that either applies the target at once or starts an
    animation loop, the loop's ease-out-cubic frames, and the fill percentage.
    The clock reading of each frame is a parameter; arithmetic is over the
    reals. */
module ProgressBar {

  /** The fixed animation window, the loop's starting value and the `max`
      prop's default. */
  const DurationMs: real := 1000.0
  const StartProgress: real := 0.0
  const DefaultMax: real := 100.0

  /** `Math.min(elapsed / duration, 1)`. */
  function ProgressRatio(elapsed: real): (r: real)
    ensures r <= 1.0
    ensures elapsed >= 0.0 ==> 0.0 <= r
    ensures r == 1.0 <==> elapsed >= DurationMs
    ensures r < 1.0 ==> r == elapsed / DurationMs
  {
    if elapsed / DurationMs < 1.0 then elapsed / DurationMs else 1.0
  }

  /** The ratio never decreases as time goes on. */
  lemma ProgressRatioMonotone(e1: real, e2: real)
    requires e1 <= e2
    ensures ProgressRatio(e1) <= ProgressRatio(e2)
  {
  }

  /** `1 - (1 - t)^3`, which fixes both ends of the unit interval. */
  function EaseOutCubic(t: real): (r: real)
    ensures t == 0.0 ==> r == 0.0
    ensures t == 1.0 ==> r == 1.0
  {
    1.0 - (1.0 - t) * (1.0 - t) * (1.0 - t)
  }

  /** Cubing keeps the order of non-negative reals. */
  lemma CubeMonotone(a: real, b: real)
    requires 0.0 <= a <= b
    ensures a * a * a <= b * b * b
  {
    assert a * a <= a * b <= b * b;
    assert a * a * a <= a * a * b;
    assert a * a * b <= b * b * b;
  }

  /** On [0, 1] the curve stays in [0, 1], starts at 0, ends at 1 and is
      below 1 before the end. */
  lemma EaseOutCubicRange(t: real)
    requires 0.0 <= t <= 1.0
    ensures 0.0 <= EaseOutCubic(t) <= 1.0
    ensures t < 1.0 ==> EaseOutCubic(t) < 1.0
  {
    var u := 1.0 - t;
    CubeMonotone(u, 1.0);
    CubeMonotone(0.0, u);
    if t < 1.0 {
      assert u > 0.0;
      assert u * u > 0.0;
      assert u * u * u > 0.0;
    }
  }

  /** The curve never decreases on [0, 1]. */
  lemma EaseOutCubicMonotone(t1: real, t2: real)
    requires 0.0 <= t1 <= t2 <= 1.0
    ensures EaseOutCubic(t1) <= EaseOutCubic(t2)
  {
    CubeMonotone(1.0 - t2, 1.0 - t1);
  }

  /** The value one frame of a loop towards `target` shows, `elapsed` ms
      after the loop started: `StartProgress` at the start and exactly the
      target once the window has elapsed. */
  function FrameValue(target: real, elapsed: real): (r: real)
    ensures elapsed == 0.0 ==> r == StartProgress
    ensures elapsed >= DurationMs ==> r == target
  {
    StartProgress + (target - StartProgress) * EaseOutCubic(ProgressRatio(elapsed))
  }

  /** For a non-negative target and elapsed time, a frame shows a value
      between 0 and the target, and before `DurationMs` less than a positive
      target. */
  lemma FrameValueRange(target: real, elapsed: real)
    requires target >= 0.0 && elapsed >= 0.0
    ensures 0.0 <= FrameValue(target, elapsed) <= target
    ensures elapsed < DurationMs && target > 0.0 ==> FrameValue(target, elapsed) < target
  {
    var e := EaseOutCubic(ProgressRatio(elapsed));
    EaseOutCubicRange(ProgressRatio(elapsed));
    assert FrameValue(target, elapsed) == target * e;
    assert 0.0 <= target * e <= target * 1.0;
    if elapsed < DurationMs && target > 0.0 {
      assert target * e < target * 1.0;
    }
  }

  /** For a non-negative target, later frames of a loop never show less. */
  lemma FrameValueMonotone(target: real, e1: real, e2: real)
    requires target >= 0.0 && 0.0 <= e1 <= e2
    ensures FrameValue(target, e1) <= FrameValue(target, e2)
  {
    var r1, r2 := ProgressRatio(e1), ProgressRatio(e2);
    ProgressRatioMonotone(e1, e2);
    EaseOutCubicMonotone(r1, r2);
    var a, b := EaseOutCubic(r1), EaseOutCubic(r2);
    ScaleMonotone(target, a, b);
    calc {
      FrameValue(target, e1);
    ==
      target * a;
    <=
      target * b;
    ==
      FrameValue(target, e2);
    }
  }

  lemma ScaleMonotone(k: real, x: real, y: real)
    requires k >= 0.0 && x <= y
    ensures k * x <= k * y
  {
    assert k * y - k * x == k * (y - x);
  }

  /** `(displayProgress / max) * 100`; a zero `max` has no value. */
  function Percentage(displayProgress: real, max: real): (r: real)
    requires max != 0.0
    ensures displayProgress == 0.0 ==> r == 0.0
    ensures displayProgress == max ==> r == 100.0
  {
    (displayProgress / max) * 100.0
  }

  /** With a positive `max`, a value between 0 and `max` fills between 0 and
      100 percent, and the full `max` fills exactly 100. */
  lemma PercentageRange(displayProgress: real, max: real)
    requires max > 0.0 && 0.0 <= displayProgress <= max
    ensures 0.0 <= Percentage(displayProgress, max) <= 100.0
    ensures displayProgress == max ==> Percentage(displayProgress, max) == 100.0
  {
    assert displayProgress / max <= max / max;
  }

  /** The bar `{progress: 50, max: 100}` halfway through its window shows
      43.75 percent (7/8 of the target), and at the end 50 percent. */
  lemma HalfwayExample()
    ensures Percentage(FrameValue(50.0, 500.0), 100.0) == 43.75
    ensures Percentage(FrameValue(50.0, 1000.0), 100.0) == 50.0
  {
  }

  /** The closure of one running animation loop: the target it was started
      for and the clock reading at its start. */
  datatype AnimationLoop = AnimationLoop(target: real, startTime: real)

  class ProgressBar {
    var progress: real
    const max: real
    const animated: bool
    var displayProgress: real
    var isVisible: bool
    /** Pending frame callbacks, one per running loop, in request order. */
    var frames: seq<AnimationLoop>

    /** Mounting: the displayed value starts at 0, not visible, no loop. */
    constructor (progress: real, max: real := DefaultMax, animated: bool := true)
      ensures this.progress == progress && this.max == max && this.animated == animated
      ensures displayProgress == 0.0 && !isVisible && frames == []
    {
      this.progress := progress;
      this.max := max;
      this.animated := animated;
      displayProgress := 0.0;
      isVisible := false;
      frames := [];
    }

    /** The viewport observer reports an entry: an intersecting one sets the
        flag, and nothing ever clears it. */
    method Intersect(isIntersecting: bool)
      modifies this`isVisible
      ensures isVisible == (old(isVisible) || isIntersecting)
    {
      if isIntersecting {
        isVisible := true;
      }
    }

    /** A new `progress` prop. */
    method SetProgress(p: real)
      modifies this`progress
      ensures progress == p
    {
      progress := p;
    }

    /** The effect run after a change of `progress` or visibility, at clock
        reading `now`: before visibility or without animation it applies the
        target at once; otherwise it starts a new loop (earlier loops are not
        cancelled). */
    method ProgressEffect(now: real)
      modifies this`displayProgress, this`frames
      ensures !isVisible || !animated ==> displayProgress == progress && frames == old(frames)
      ensures isVisible && animated ==>
        displayProgress == old(displayProgress) &&
        frames == old(frames) + [AnimationLoop(progress, now)]
    {
      if !isVisible || !animated {
        displayProgress := progress;
        return;
      }
      frames := frames + [AnimationLoop(progress, now)];
    }

    /** The frame callback of pending entry `i` runs at clock reading `now`:
        it shows its loop's frame value and requests another frame until the
        ratio reaches 1. */
    method AnimationFrame(i: nat, now: real)
      requires i < |frames|
      modifies this`displayProgress, this`frames
      ensures var loop := old(frames)[i];
        && displayProgress == FrameValue(loop.target, now - loop.startTime)
        && frames == old(frames)[..i] + old(frames)[i + 1..] +
                     (if ProgressRatio(now - loop.startTime) < 1.0 then [loop] else [])
    {
      var loop := frames[i];
      var elapsed := now - loop.startTime;
      var ratio := ProgressRatio(elapsed);
      displayProgress := StartProgress + (loop.target - StartProgress) * EaseOutCubic(ratio);
      frames := frames[..i] + frames[i + 1..];
      if ratio < 1.0 {
        frames := frames + [loop];
      }
    }
  }

  /** A bar that never enters the viewport shows each new target at once:
      its displayed value is always the latest `progress`, never the initial 0
      once the mount effect has run. */
  method NeverVisible(progress: real, max: real, animated: bool, updates: seq<real>, times: seq<real>)
    returns (shown: real)
    requires |times| == |updates| + 1
    ensures shown == if updates == [] then progress else updates[|updates| - 1]
  {
    var bar := new ProgressBar(progress, max, animated);
    bar.ProgressEffect(times[0]);
    var i := 0;
    while i < |updates|
      invariant 0 <= i <= |updates|
      invariant !bar.isVisible && bar.frames == []
      invariant bar.displayProgress == if i == 0 then progress else updates[i - 1]
    {
      bar.SetProgress(updates[i]);
      bar.ProgressEffect(times[i + 1]);
      i := i + 1;
    }
    shown := bar.displayProgress;
  }

  /** A mounted animated bar with a non-negative target that enters the
      viewport at clock reading `start`, then runs its frames at the
      non-decreasing readings `times`. Before visibility it shows the full
      target; the animation then restarts from 0, never decreases, stays
      within [0, target], shows the target from `DurationMs` on, and requests
      no frame after that. */
  method AnimateAfterVisible(target: real, start: real, times: seq<real>)
    returns (before: real, shown: seq<real>)
    requires target >= 0.0
    requires forall k :: 0 <= k < |times| ==> start <= times[k]
    requires forall k, l :: 0 <= k < l < |times| ==> times[k] <= times[l]
    ensures before == target
    ensures |shown| <= |times|
    ensures forall k :: 0 <= k < |shown| ==> 0.0 <= shown[k] <= target
    ensures forall k, l :: 0 <= k < l < |shown| ==> shown[k] <= shown[l]
    ensures forall k :: 0 <= k < |shown| && times[k] - start >= DurationMs ==> shown[k] == target
    ensures |shown| > 0 && times[0] == start ==> shown[0] == 0.0
    ensures |shown| < |times| ==> |shown| > 0 && shown[|shown| - 1] == target
  {
    var bar := new ProgressBar(target, DefaultMax, true);
    bar.ProgressEffect(start);
    before := bar.displayProgress;
    bar.Intersect(true);
    bar.ProgressEffect(start);
    shown := [];
    var i := 0;
    while i < |times| && bar.frames != []
      invariant 0 <= i <= |times| && |shown| == i
      invariant bar.isVisible && bar.progress == target
      invariant bar.frames == [] || bar.frames == [AnimationLoop(target, start)]
      invariant forall k :: 0 <= k < i ==> shown[k] == FrameValue(target, times[k] - start)
      invariant bar.frames == [] <==> i > 0 && times[i - 1] - start >= DurationMs
    {
      bar.AnimationFrame(0, times[i]);
      shown := shown + [bar.displayProgress];
      i := i + 1;
    }
    forall k | 0 <= k < |shown|
      ensures 0.0 <= shown[k] <= target
      ensures times[k] - start >= DurationMs ==> shown[k] == target
      ensures times[k] == start ==> shown[k] == 0.0
    {
      FrameValueRange(target, times[k] - start);
    }
    forall k, l | 0 <= k < l < |shown| ensures shown[k] <= shown[l] {
      FrameValueMonotone(target, times[k] - start, times[l] - start);
    }
  }

  /** A bar given only its progress: out of 100 and animated, so once it
      has been seen its effect starts an animation loop toward the target
      instead of jumping there. */
  method DefaultBar(progress: real, now: real) returns (max: real, animated: bool, loops: seq<AnimationLoop>)
    ensures max == 100.0 && animated
    ensures loops == [AnimationLoop(progress, now)]
  {
    var bar := new ProgressBar(progress);
    max, animated := bar.max, bar.animated;
    bar.Intersect(true);
    bar.ProgressEffect(now);
    loops := bar.frames;
  }
}
