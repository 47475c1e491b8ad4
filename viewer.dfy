/**
  One pass of the render loop in `main`: read the clock, process the keys,
  then render. The order matters: keyboard movement uses this frame's time
  step, and the projection and lamp motion drawn reflect this frame's keys.
 */
module Viewer {
  import Camera
  import Input
  import Timing
  import Render

  class Viewer {
    const clock: Timing.FrameClock
    const controls: Input.Controls

    constructor ()
      ensures fresh(clock) && fresh(controls)
      ensures clock.deltaTime == 0.0 && clock.lastFrame == 0.0
      ensures !controls.perspective && controls.lampOrbiting && !controls.closeRequested
    {
      clock := new Timing.FrameClock();
      controls := new Input.Controls();
    }

    /**
      One frame at clock reading `now` with `keys` held and the camera's zoom
      at `zoom`. Returns the camera calls made, the projection the frame is
      drawn with, and whether the lamp moves this frame.
     */
    method Frame(now: real, keys: set<Input.Key>, zoom: real)
      returns (calls: seq<Camera.CameraCall>, projection: Render.ProjectionCall, lampMoves: bool)
      modifies clock, controls
      ensures clock.lastFrame == now && clock.deltaTime == now - old(clock.lastFrame)
      ensures calls == Input.MovementCalls(keys, now - old(clock.lastFrame))
      ensures controls.perspective == Input.ProjectionFlag(old(controls.perspective), keys)
      ensures projection == Render.SelectProjection(controls.perspective, zoom)
      ensures lampMoves == Input.LampToggle(old(controls.lampOrbiting), keys)
      ensures controls.lampOrbiting == lampMoves
      ensures controls.closeRequested == (old(controls.closeRequested) || Input.Escape in keys)
    {
      clock.Tick(now);
      calls := controls.ProcessInput(keys, clock.deltaTime);
      projection := Render.SelectProjection(controls.perspective, zoom);
      lampMoves := controls.lampOrbiting;
    }
  }
}
