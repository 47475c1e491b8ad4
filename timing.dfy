/**
  Per-frame timing in the render loop of `main`: each frame reads the clock,
  takes the time since the previous frame as `gDeltaTime`, and remembers the
  reading in `gLastFrame`. The clock readings are inputs here.
 */
module Timing {

  /** The time steps the frame loop computes from clock readings `times`, starting after `last`. */
  function Deltas(last: real, times: seq<real>): (ds: seq<real>)
    ensures |ds| == |times|
    ensures |times| > 0 ==> ds[0] == times[0] - last
    ensures forall i :: 0 < i < |times| ==> ds[i] == times[i] - times[i - 1]
  {
    if |times| == 0 then []
    else Deltas(last, times[..|times| - 1]) + [times[|times| - 1] - (if |times| == 1 then last else times[|times| - 2])]
  }

  function Sum(xs: seq<real>): real
  {
    if |xs| == 0 then 0.0 else Sum(xs[..|xs| - 1]) + xs[|xs| - 1]
  }

  /** The time steps add up to the time elapsed between `last` and the final reading. */
  lemma {:induction false} DeltasTelescope(last: real, times: seq<real>)
    requires |times| > 0
    ensures Sum(Deltas(last, times)) == times[|times| - 1] - last
  {
    if |times| > 1 {
      var front := times[..|times| - 1];
      DeltasTelescope(last, front);
      assert Deltas(last, times)[..|times| - 1] == Deltas(last, front);
    }
  }

  /** `gDeltaTime` and `gLastFrame`. */
  class FrameClock {
    var deltaTime: real
    var lastFrame: real

    /** Both start at zero. */
    constructor ()
      ensures deltaTime == 0.0 && lastFrame == 0.0
    {
      deltaTime := 0.0;
      lastFrame := 0.0;
    }

    /** The timing step at the top of one frame, with the clock reading `currentFrame`. */
    method Tick(currentFrame: real)
      modifies this
      ensures deltaTime == currentFrame - old(lastFrame)
      ensures lastFrame == currentFrame
    {
      deltaTime := currentFrame - lastFrame;
      lastFrame := currentFrame;
    }

    /**
      The timing steps of the frames whose clock readings are `times`;
      returns each frame's `deltaTime`.
     */
    method RunFrames(times: seq<real>) returns (ds: seq<real>)
      modifies this
      ensures ds == Deltas(old(lastFrame), times)
      ensures |times| > 0 ==> lastFrame == times[|times| - 1] && deltaTime == ds[|ds| - 1]
      ensures |times| == 0 ==> lastFrame == old(lastFrame) && deltaTime == old(deltaTime)
    {
      ghost var start := lastFrame;
      ghost var startDelta := deltaTime;
      ds := [];
      var n := 0;
      while n < |times|
        invariant 0 <= n <= |times|
        invariant ds == Deltas(start, times[..n])
        invariant n > 0 ==> lastFrame == times[n - 1] && deltaTime == ds[n - 1]
        invariant n == 0 ==> lastFrame == start && deltaTime == startDelta
      {
        Tick(times[n]);
        assert times[..n + 1][..n] == times[..n];
        ds := ds + [deltaTime];
        n := n + 1;
      }
      assert times[..n] == times;
    }
  }
}
