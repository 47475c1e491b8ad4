/**
  The camera object the viewer drives. Its class is defined outside the
  viewer and is not part of this model, so each call the viewer makes on it
  is recorded as a value carrying the call's arguments.
 */
module Camera {

  /** The `Camera_Movement` directions handed to `ProcessKeyboard`. */
  datatype Movement = Forward | Backward | Left | Right | Up | Down

  /** One call on `gCamera`, with the arguments the viewer passes. */
  datatype CameraCall =
    | ProcessKeyboard(direction: Movement, deltaTime: real)
    | ProcessMouseMovement(xoffset: real, yoffset: real)
    | ProcessMouseScroll(yoffset: real)
}
