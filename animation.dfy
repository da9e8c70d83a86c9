/**
 * Sprite animation: a list of frames, each shown for its own duration, with
 * the index of the frame on screen and the time it has been shown.
 */
module Animations {
  import opened Geometry

  datatype AnimationFrame = AnimationFrame(rect: IntRect, duration: real)

  predicate AllPositive(frames: seq<AnimationFrame>)
  {
    forall i :: 0 <= i < |frames| ==> frames[i].duration > 0.0
  }

  /** The index reached from `from` after `k` steps to the next frame, wrapping around after the last. */
  function After(n: nat, from: nat, k: nat): (i: nat)
    requires from < n
    ensures i < n
  {
    if k == 0 then from else (After(n, from, k - 1) + 1) % n
  }

  /** Total duration of the `k` frames shown one after the other from index `from`. */
  function Skipped(frames: seq<AnimationFrame>, from: nat, k: nat): real
    requires from < |frames|
  {
    if k == 0 then 0.0
    else Skipped(frames, from, k - 1) + frames[After(|frames|, from, k - 1)].duration
  }

  /**
   * Each of the first `k` skips from index `from` was due: with `total`
   * seconds to consume, the time left before the skip covered the frame skipped.
   */
  predicate SkipsDue(frames: seq<AnimationFrame>, from: nat, total: real, k: nat)
    requires from < |frames|
  {
    k == 0 ||
    (SkipsDue(frames, from, total, k - 1) &&
     total - Skipped(frames, from, k - 1) >= frames[After(|frames|, from, k - 1)].duration)
  }

  /**
   * The animation step relation: starting on frame `i0` with `e0` seconds
   * shown, `dt` more seconds end on frame `index` with `elapsed` seconds
   * shown after `steps` skips, each of them due, and the frame reached is not
   * yet due. Without frames nothing moves.
   */
  predicate Advanced(frames: seq<AnimationFrame>, i0: nat, e0: real, dt: real,
                     index: nat, elapsed: real, steps: nat)
  {
    if frames == [] then index == i0 && elapsed == e0 && steps == 0
    else
      i0 < |frames| &&
      index == After(|frames|, i0, steps) &&
      e0 + dt == elapsed + Skipped(frames, i0, steps) &&
      elapsed < frames[index].duration &&
      SkipsDue(frames, i0, e0 + dt, steps)
  }

  /** Every single skip counted by `SkipsDue` was due. */
  lemma {:induction false} SkipsDueEach(frames: seq<AnimationFrame>, from: nat, total: real, k: nat, j: nat)
    requires from < |frames| && SkipsDue(frames, from, total, k) && j < k
    ensures total - Skipped(frames, from, j) >= frames[After(|frames|, from, j)].duration
  {
    if j < k - 1 {
      SkipsDueEach(frames, from, total, k - 1, j);
    }
  }

  /** The shortest frame duration: every skip consumes at least this much time. */
  function MinDuration(frames: seq<AnimationFrame>): (lo: real)
    requires frames != [] && AllPositive(frames)
    ensures lo > 0.0
    ensures forall i :: 0 <= i < |frames| ==> lo <= frames[i].duration
  {
    if |frames| == 1 then frames[0].duration
    else
      var rest := MinDuration(frames[1..]);
      assert forall i :: 1 <= i < |frames| ==> frames[1..][i - 1] == frames[i];
      if frames[0].duration < rest then frames[0].duration else rest
  }

  /** Taking a frame of at least `lo` off the remaining time lowers the loop's measure. */
  lemma MeasureDrops(e: real, d: real, lo: real)
    requires 0.0 < lo <= d <= e
    ensures 0 <= ((e - d) / lo).Floor < (e / lo).Floor
  {
    assert (e - d) / lo == e / lo - d / lo;
    assert d / lo >= lo / lo == 1.0;
    assert (e - d) / lo >= 0.0;
  }

  class Animation {
    var frames: seq<AnimationFrame>
    /** The frame on screen. */
    var index: nat
    /** Time the frame on screen has been shown, in seconds. */
    var elapsed: real

    ghost predicate Valid()
      reads this
    {
      (frames == [] ==> index == 0) && (frames != [] ==> index < |frames|)
    }

    constructor ()
      ensures Valid() && frames == [] && index == 0 && elapsed == 0.0
    {
      frames := [];
      index := 0;
      elapsed := 0.0;
    }

    method AddFrame(rect: IntRect, duration: real)
      requires Valid()
      modifies this
      ensures Valid()
      ensures frames == old(frames) + [AnimationFrame(rect, duration)]
      ensures index == old(index) && elapsed == old(elapsed)
      ensures AllPositive(old(frames)) && duration > 0.0 ==> AllPositive(frames)
    {
      frames := frames + [AnimationFrame(rect, duration)];
    }

    /** The sprite-sheet rectangle of the frame on screen. */
    function CurrentFrame(): IntRect
      reads this
      requires Valid() && frames != []
    {
      frames[index].rect
    }

    /**
     * Advances the animation by `dt` seconds: the frame on screen is skipped,
     * and its duration consumed, for as long as the time shown covers it.
     * `steps` is the number of frames skipped. An animation without frames
     * is left alone.
     */
    method Update(dt: real) returns (ghost steps: nat)
      requires Valid() && AllPositive(frames)
      modifies this
      ensures Valid() && frames == old(frames)
      ensures Advanced(frames, old(index), old(elapsed), dt, index, elapsed, steps)
      ensures steps > 0 ==> elapsed >= 0.0
    {
      steps := 0;
      if frames == [] {
        return;
      }
      elapsed := elapsed + dt;
      ghost var total, first, fs := elapsed, index, frames;
      ghost var lo := MinDuration(fs);
      while elapsed >= frames[index].duration
        invariant frames == fs && index < |fs|
        invariant index == After(|fs|, first, steps)
        invariant total == elapsed + Skipped(fs, first, steps)
        invariant SkipsDue(fs, first, total, steps)
        invariant steps > 0 ==> elapsed >= 0.0
        decreases (elapsed / lo).Floor
      {
        var d := frames[index].duration;
        MeasureDrops(elapsed, d, lo);
        elapsed := elapsed - d;
        index := (index + 1) % |frames|;
        steps := steps + 1;
      }
    }

    method Reset()
      requires Valid()
      modifies this
      ensures Valid() && frames == old(frames) && index == 0 && elapsed == 0.0
    {
      index := 0;
      elapsed := 0.0;
    }

    /**
     * Spreads `total` seconds evenly over the frames; rectangles and their
     * order are kept. With no frames there is nothing to rewrite.
     */
    method SetDuration(total: real)
      requires Valid()
      modifies this
      ensures Valid() && |frames| == |old(frames)|
      ensures forall i :: 0 <= i < |frames| ==>
                frames[i].rect == old(frames[i].rect) && frames[i].duration == total / (|frames| as real)
      ensures index == old(index) && elapsed == old(elapsed)
    {
      if frames == [] {
        return;
      }
      var frameDuration := total / (|frames| as real);
      for i := 0 to |frames|
        invariant |frames| == |old(frames)| && index == old(index) && elapsed == old(elapsed)
        invariant forall k :: 0 <= k < i ==> frames[k] == old(frames[k]).(duration := frameDuration)
        invariant forall k :: i <= k < |frames| ==> frames[k] == old(frames[k])
      {
        frames := frames[i := frames[i].(duration := frameDuration)];
      }
    }
  }
}
