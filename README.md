# Scene viewer core, modelled in Dafny

The viewer in `Source.cpp` is an OpenGL program. It shows a few textured
meshes under Phong lighting and has a free-fly camera. Most of the file is
GL, GLFW and image-decoder glue. This project models the parts of it that
are logic of their own:

- `flipImageVertically` (`image_flip.dfy`): reverses the rows of a decoded
  image in place, so that OpenGL receives them bottom-up. It is modelled as
  a method on an `array<byte>` with the same nested swap loops. It is proved
  against `Flipped`, a specification function: row `r` of the result is row
  `height - 1 - r` of the input, bytes past the image stay put, and the bytes
  are permuted. Separate lemmas prove that flipping twice is the identity and
  that the middle row of an odd-height image does not move.
- `UProcessInput` (`input.dfy`): the per-frame keyboard state machine. It
  covers the close request on Escape, the ordered dispatch of W, S, A, D, Q, E
  to the camera, the (inversely named) `perspective` flag set by P and O, and
  the lamp-orbit toggle on L and K.
- `UMousePositionCallback` (`mouse.dfy`): the first-sample latch and the
  cursor deltas it hands to the camera, with the y axis reversed.
- The frame timing of the render loop (`timing.dfy`), the projection choice
  in `URender` (`render.dfy`), and the order of one loop pass (`viewer.dfy`).
- `UCreateTexture`'s dispatch on the channel count (`texture.dfy`) and the
  vertex layout built by `UCreateMesh` (`mesh.dfy`).

`camera.h` declares the camera class; it is not part of this model. The
viewer's calls on the camera are therefore recorded as `Camera.CameraCall`
values carrying their arguments. Floats are modelled as `real`. The clock
reading, the held keys, the cursor position, the camera's zoom and the
decoder's output buffer are all parameters.

The nested loops of `flipImageVertically` are kept. The inner loop is its
own method, `ImageFlip.SwapRowBytes`, so that each loop is proved against
its own specification. `SwapRanges` specifies the inner loop and
`PairsSwapped` the outer loop.

## Model

| member | source | states |
|---|---|---|
| ImageFlip.HalfRows | Source.cpp:335 | `height / 2` as C computes it, truncating toward zero: for `height >= 0`, `2h <= height <= 2h + 1`; for negative heights, the loop bound is not positive |
| ImageFlip.FlippedRow | Source.cpp:335-347 | byte `c` of row `r` of the flipped buffer is byte `c` of row `height - 1 - r` of the original |
| ImageFlip.FlipKeepsTail | Source.cpp:335-347 | bytes at index `height * width * channels` and beyond are never moved |
| ImageFlip.FlipKeepsMiddleRow | Source.cpp:335-338 | for odd `height`, row `height / 2` is unchanged, because the outer loop stops before it |
| ImageFlip.FlipTwiceIsIdentity | Source.cpp:333-349 | flipping twice gives back the original buffer |
| ImageFlip.FlipEmptyImage | Source.cpp:335-340 | with no rows or empty rows the flip changes nothing |
| ImageFlip.PairsSwappedNone | Source.cpp:335 | before the outer loop runs, the buffer is the original |
| ImageFlip.PairsSwappedAllIsFlipped | Source.cpp:335-348 | once the outer loop has exchanged the first `height / 2` row pairs, the buffer is exactly the flipped image, including the untouched middle row |
| ImageFlip.SwapRangesStep | Source.cpp:342-346 | one swap through `tmp`, followed by advancing both indices, extends the exchanged ranges by one byte each |
| ImageFlip.StepLowerRow | Source.cpp:337-347 | after turn `j`, row `j` holds the original bytes of row `height - 1 - j` |
| ImageFlip.StepUpperRow | Source.cpp:337-347 | after turn `j`, row `height - 1 - j` holds the original bytes of row `j` |
| ImageFlip.StepOtherRow | Source.cpp:337-347 | turn `j` leaves every other row as the earlier turns left it |
| ImageFlip.PairsSwappedStep | Source.cpp:336-348 | rows `j` and `height - 1 - j` are disjoint ranges inside the buffer, and exchanging them takes the outer loop's state from `j` to `j + 1` turns |
| ImageFlip.SwapRowBytes | Source.cpp:340-347 | the inner loop exchanges the `width * channels` bytes from `index1` with those from `index2`, moves nothing else, and permutes the bytes |
| ImageFlip.FlipImageVertically | Source.cpp:333-349 | the buffer afterwards is `Flipped` of the buffer before, and a permutation of it |
| Input.MovementCallsUpTo | Source.cpp:516-527 | polling the first `n` movement keys makes at most `n` camera calls |
| Input.MovementCallsUpToSpec | Source.cpp:516-527 | polling the first `n` keys (a loop invariant over the `if` chain) calls `ProcessKeyboard(m, deltaTime)` exactly for the held keys among them, in polling order, and makes no other call |
| Input.MovementCalls | Source.cpp:516-527 | one frame makes at most six camera calls |
| Input.MovementCallsSpec | Source.cpp:516-527 | a frame calls `ProcessKeyboard(m, deltaTime)` if and only if the key for `m` is held, once each, in the order W, S, A, D, Q, E |
| Input.MovementCallsIgnoreOtherKeys | Source.cpp:513-538 | Escape, P, O, L and K never reach the camera |
| Input.ProjectionFlag | Source.cpp:528-531 | O sets the flag even when P is also held; P alone clears it; with neither the flag is kept |
| Input.ProjectionFlagSettles | Source.cpp:528-531 | holding the same keys for another frame leaves the flag unchanged |
| Input.LampToggle | Source.cpp:535-538 | an orbiting lamp keeps orbiting unless K is held; a paused lamp resumes exactly when L is held |
| Input.LampToggleBothKeys | Source.cpp:535-538 | with L and K both held, the lamp changes state every frame |
| Input.Controls.constructor | Source.cpp:33-115 | start-up state: perspective view, lamp orbiting, window open |
| Input.Controls.ProcessInput | Source.cpp:509-539 | one call sets the close request on Escape, makes `MovementCalls` on the camera, and updates the flag and the lamp by `ProjectionFlag` and `LampToggle` |
| Mouse.Move | Source.cpp:551-567 | after an event the latch is disarmed and the last position is the new one; the first event gives zero offsets; later events give `(xpos - lastX, lastY - ypos)` |
| Mouse.Replay | Source.cpp:551-567 | a run of events makes one camera call per event and leaves the last position at the final sample |
| Mouse.ReplayNeverRearms | Source.cpp:553-557 | after the first event the latch stays disarmed, and replaying a run in two parts gives the same state as replaying it whole |
| Mouse.ReplayTelescopes | Source.cpp:553-564 | from start-up, the offsets of a run add up to the cursor's displacement since the first sample (y reversed), so the first sample adds no rotation |
| Mouse.MouseLatch.constructor | Source.cpp:64-66 | start-up state: armed, last position at the window centre (400, 300) |
| Mouse.Scroll | Source.cpp:570-573 | a scroll event makes one `ProcessMouseScroll` call on the camera with the event's `yoffset`; the `xoffset` is dropped |
| Mouse.MouseLatch.OnCursorMove | Source.cpp:551-567 | one callback updates the globals and makes the camera call as `Move` prescribes |
| Timing.Deltas | Source.cpp:424-426 | the first frame's step is measured from the initial `gLastFrame`; each later step is the difference of consecutive clock readings |
| Timing.DeltasTelescope | Source.cpp:424-426 | the steps add up to the time elapsed since the initial `gLastFrame` |
| Timing.FrameClock.constructor | Source.cpp:69-70 | `gDeltaTime` and `gLastFrame` start at 0 |
| Timing.FrameClock.Tick | Source.cpp:424-426 | `gDeltaTime` becomes the reading minus the previous `gLastFrame`, and `gLastFrame` becomes the reading |
| Timing.FrameClock.RunFrames | Source.cpp:420-426 | over a run of frames the loop computes exactly `Deltas` and ends with the last reading stored |
| Render.SelectProjection | Source.cpp:649-657 | a false flag selects `glm::perspective` with fov = zoom and aspect 800/600; a true flag selects `glm::ortho(-12, 15, -7, 1)`; both use near 0.1 and far 100 |
| Render.OrthoIgnoresZoom | Source.cpp:655-657 | the orthographic projection does not depend on the zoom |
| Render.PerspectiveAspect | Source.cpp:653 | the perspective aspect is 4 : 3 |
| Render.KeysSelectProjection | Source.cpp:528-531 | after a frame with O held the view is orthographic; with only P held it is perspective at the current zoom; with neither it is kept |
| Viewer.Viewer.constructor | Source.cpp:33-115 | start-up state of the clock and controls |
| Viewer.Viewer.Frame | Source.cpp:420-431 | a loop pass ticks the clock first, so keyboard movement uses this frame's step, and the projection and lamp drawn reflect this frame's keys |
| Texture.Channels | Source.cpp:1550-1553 | RGB8 stores 3 bytes per pixel and RGBA8 stores 4 |
| Texture.FormatFor | Source.cpp:1550-1558 | 3 channels select RGB8, 4 select RGBA8, any other count is refused |
| Texture.FormatRoundTrip | Source.cpp:1550-1558 | the selected format stores as many bytes per pixel as the image has, and each format is selected for its own count |
| Texture.CreateTexture | Source.cpp:1531-1570 | a null decoder result fails; otherwise the image is flipped, whatever its channel count, and the upload succeeds exactly when `FormatFor` selects a format |
| Mesh.VertexCount | Source.cpp:1494-1498 | `nVertices` is the number of whole 8-float entries in the table |
| Mesh.VertexCountOfTable | Source.cpp:1498 | a table of `n` whole entries has `n` vertices |
| Mesh.AttributePointers | Source.cpp:1509-1518 | attribute locations 0, 1 and 2 all use the 32-byte stride |
| Mesh.LayoutIsExact | Source.cpp:1509-1518 | every float of the table is read by some component of some attribute of some vertex |
| Mesh.LayoutIsDisjoint | Source.cpp:1509-1518 | no float is read by two components |

## Left out

- The camera class: `ProcessKeyboard`, `ProcessMouseMovement`, `ProcessMouseScroll`, `GetViewMatrix` and `Zoom` live in `learnOpengl/camera.h`, which is not part of this model. Its movement speed, mouse sensitivity, pitch and zoom clamps and basis vectors are therefore not modelled; only the calls and their arguments are.
- All GL, GLFW, GLEW and image-decoder calls: window setup, buffers, texture upload parameters, mipmaps, shaders, draw calls, buffer swaps. They are foreign I/O. `stbi_load` is replaced by the `image` parameter of `CreateTexture`. The decoder is assumed to return a buffer of `width * height * channels` bytes, which is `CreateTexture`'s precondition.
- `UDestroyTexture` calls `glGenTextures` where `glDeleteTextures` is evidently meant. On the unsupported-channel path, `UCreateTexture` also returns without freeing the image or unbinding the texture. Both involve only GL or decoder resources, which the model does not track.
- GLSL sources, the Phong lighting, the vertex tables built from `cos` and `sin`, and the lamp orbit via `glm::rotate`. These are floating-point trigonometry. Of the orbit, only whether the lamp moves in a frame is modelled (`Viewer.Frame`).
- The matrix entries made by `glm::perspective` and `glm::ortho`, and the degrees-to-radians `glm::radians` conversion. Only which call is made, and with which arguments, is modelled.
- `UMouseButtonCallback` (console logging only) and `UResizeWindow` (a viewport call only).
- ImageFlip.FlipImageVertically: does not model the 32-bit `int` overflow of `j * width * channels` for images of more than 2^31 bytes, or the out-of-bounds accesses the C code would make when the buffer is shorter than the image. The precondition `Fits` requires a buffer that holds the image.
- Mouse.Move, Timing.Deltas and Render.SelectProjection: floats are exact reals here. The `double` to `float` narrowing of the cursor position, and float rounding of differences and of the aspect 800/600, are not modelled.
- The unused locals `cameraSpeed` and `isLKeyDown` in `UProcessInput` have no effect and are not modelled.
