/**
  `UMousePositionCallback`: the cursor callback keeps the last cursor
  position and a first-sample latch, and turns each new position into a
  camera rotation by the cursor's displacement. The y offset is reversed
  because window y coordinates grow downwards.
 */
module Mouse {
  import opened Camera

  /** `WINDOW_WIDTH / 2.0f` and `WINDOW_HEIGHT / 2.0f`: the centre of the 800 x 600 window. */
  const StartX: real := 400.0
  const StartY: real := 300.0

  /** The callback's state: `gFirstMouse`, `gLastX`, `gLastY`. */
  datatype Latch = Latch(firstMouse: bool, lastX: real, lastY: real)

  /** The state before any cursor event. */
  const Initial: Latch := Latch(true, StartX, StartY)

  /**
    One cursor event at `(xpos, ypos)`: the state afterwards and the camera
    call made. The first event seeds the last position before the offsets are
    taken, so it rotates the camera by nothing.
   */
  function Move(l: Latch, xpos: real, ypos: real): (r: (Latch, CameraCall))
    ensures r.0 == Latch(false, xpos, ypos)
    ensures r.1.ProcessMouseMovement?
    ensures l.firstMouse ==> r.1.xoffset == 0.0 && r.1.yoffset == 0.0
    ensures !l.firstMouse ==> r.1.xoffset == xpos - l.lastX && r.1.yoffset == l.lastY - ypos
  {
    var seeded := if l.firstMouse then Latch(false, xpos, ypos) else l;
    var xoffset := xpos - seeded.lastX;
    var yoffset := seeded.lastY - ypos;
    (Latch(false, xpos, ypos), ProcessMouseMovement(xoffset, yoffset))
  }

  /** The state and the camera calls after a sequence of cursor events. */
  function Replay(l: Latch, samples: seq<(real, real)>): (r: (Latch, seq<CameraCall>))
    ensures |r.1| == |samples|
    ensures |samples| > 0 ==> r.0 == Latch(false, samples[|samples| - 1].0, samples[|samples| - 1].1)
    ensures |samples| == 0 ==> r.0 == l
  {
    if |samples| == 0 then (l, [])
    else
      var (mid, calls) := Replay(l, samples[..|samples| - 1]);
      var (last, call) := Move(mid, samples[|samples| - 1].0, samples[|samples| - 1].1);
      (last, calls + [call])
  }

  /** Sum of the horizontal rotations in a list of camera calls. */
  function SumX(calls: seq<CameraCall>): real
  {
    if |calls| == 0 then 0.0
    else SumX(calls[..|calls| - 1]) + (if calls[|calls| - 1].ProcessMouseMovement? then calls[|calls| - 1].xoffset else 0.0)
  }

  /** Sum of the vertical rotations in a list of camera calls. */
  function SumY(calls: seq<CameraCall>): real
  {
    if |calls| == 0 then 0.0
    else SumY(calls[..|calls| - 1]) + (if calls[|calls| - 1].ProcessMouseMovement? then calls[|calls| - 1].yoffset else 0.0)
  }

  /** Once a cursor event has been seen, the latch never re-arms. */
  lemma {:induction false} ReplayNeverRearms(l: Latch, samples: seq<(real, real)>, more: seq<(real, real)>)
    requires |samples| > 0
    ensures !Replay(l, samples + more).0.firstMouse
    ensures Replay(l, samples + more).0 == Replay(Replay(l, samples).0, more).0
    decreases |more|
  {
    if |more| > 0 {
      assert (samples + more)[..|samples + more| - 1] == samples + more[..|more| - 1];
      ReplayNeverRearms(l, samples, more[..|more| - 1]);
    } else {
      assert samples + more == samples;
    }
  }

  /**
    The camera is rotated in total by the cursor's displacement since the
    first event: the offsets telescope, and the first event contributes none.
   */
  lemma {:induction false} ReplayTelescopes(samples: seq<(real, real)>)
    requires |samples| > 0
    ensures SumX(Replay(Initial, samples).1) == samples[|samples| - 1].0 - samples[0].0
    ensures SumY(Replay(Initial, samples).1) == samples[0].1 - samples[|samples| - 1].1
  {
    var n := |samples|;
    if n > 1 {
      var front := samples[..n - 1];
      ReplayTelescopes(front);
      assert front[0] == samples[0];
      var (mid, calls) := Replay(Initial, front);
      assert !mid.firstMouse && mid.lastX == front[n - 2].0 && mid.lastY == front[n - 2].1;
      var all := Replay(Initial, samples).1;
      assert all[..n - 1] == calls;
    }
  }

  /**
    `UMouseScrollCallback`: a wheel event with offsets `(xoffset, yoffset)`.
    Only the vertical offset reaches the camera; the cursor latch is not involved.
   */
  function Scroll(xoffset: real, yoffset: real): (c: CameraCall)
    ensures c.ProcessMouseScroll? && c.yoffset == yoffset
  {
    ProcessMouseScroll(yoffset)
  }

  /**
    The globals of the cursor callback. `OnCursorMove` is one call of
    `UMousePositionCallback`; it returns the camera call made.
   */
  class MouseLatch {
    var firstMouse: bool
    var lastX: real
    var lastY: real

    /** The value of the state as a latch. */
    function State(): (l: Latch)
      reads this
      ensures l.firstMouse == firstMouse && l.lastX == lastX && l.lastY == lastY
    {
      Latch(firstMouse, lastX, lastY)
    }

    /** The start-up values: armed, last position at the window centre. */
    constructor ()
      ensures State() == Initial
    {
      firstMouse := true;
      lastX := StartX;
      lastY := StartY;
    }

    method OnCursorMove(xpos: real, ypos: real) returns (call: CameraCall)
      modifies this
      ensures (State(), call) == Move(old(State()), xpos, ypos)
      ensures !firstMouse && lastX == xpos && lastY == ypos
    {
      if firstMouse {
        lastX := xpos;
        lastY := ypos;
        firstMouse := false;
      }
      var xoffset := xpos - lastX;
      var yoffset := lastY - ypos;
      lastX := xpos;
      lastY := ypos;
      call := ProcessMouseMovement(xoffset, yoffset);
    }
  }
}
