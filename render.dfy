/**
  The choice of projection in `URender`. Which library call builds the
  projection matrix, and with which arguments, is modelled; the matrix
  entries themselves are not.
 */
module Render {
  import Input

  /** `WINDOW_WIDTH` and `WINDOW_HEIGHT`. */
  const WindowWidth: real := 800.0
  const WindowHeight: real := 600.0

  /** The two projection calls `URender` can make, with their arguments. */
  datatype ProjectionCall =
    | Perspective(fovyDegrees: real, aspect: real, near: real, far: real)
    | Ortho(left: real, right: real, bottom: real, top: real, near: real, far: real)

  /**
    The projection for one frame. The `perspective` flag is named the wrong
    way round: while it is false the view is perspective, with the camera's
    zoom as the field of view; while it is true the view is a fixed
    orthographic box.
   */
  function SelectProjection(perspective: bool, zoom: real): (p: ProjectionCall)
    ensures p.Perspective? <==> !perspective
    ensures p.near == 0.1 && p.far == 100.0
    ensures p.Perspective? ==> p.fovyDegrees == zoom && p.aspect == WindowWidth / WindowHeight
    ensures p.Ortho? ==> p.left == -12.0 && p.right == 15.0 && p.bottom == -7.0 && p.top == 1.0
  {
    if !perspective then
      Perspective(zoom, WindowWidth / WindowHeight, 0.1, 100.0)
    else
      Ortho(-12.0, 15.0, -7.0, 1.0, 0.1, 100.0)
  }

  /** The orthographic view does not depend on the camera's zoom. */
  lemma OrthoIgnoresZoom(zoom1: real, zoom2: real)
    ensures SelectProjection(true, zoom1) == SelectProjection(true, zoom2)
  {
  }

  /** The perspective view's aspect is the window's, 4 : 3. */
  lemma PerspectiveAspect(zoom: real)
    ensures SelectProjection(false, zoom).aspect * 3.0 == 4.0
  {
  }

  /**
    After a frame with O held the view is orthographic; after a frame with
    only P held it is perspective; with neither the view is kept.
   */
  lemma KeysSelectProjection(before: bool, keys: set<Input.Key>, zoom: real)
    ensures Input.O in keys ==> SelectProjection(Input.ProjectionFlag(before, keys), zoom).Ortho?
    ensures Input.P in keys && Input.O !in keys ==>
              SelectProjection(Input.ProjectionFlag(before, keys), zoom) == Perspective(zoom, WindowWidth / WindowHeight, 0.1, 100.0)
    ensures Input.P !in keys && Input.O !in keys ==>
              SelectProjection(Input.ProjectionFlag(before, keys), zoom) == SelectProjection(before, zoom)
  {
  }
}
