# kanvas core in Dafny

kanvas is a small creative-coding framework. A sketch supplies `setup(model)`,
run once, and `draw(model, frame_count, delta_ms)`, run every frame. It draws into
a `Model`: a width-by-height framebuffer of RGB bytes indexed `fb[x, y]`. The
framework polls the window for input. Escape or closing the window quits, and `s`
saves a PNG. The framework presents the framebuffer after every frame and lets
the sketch stop or resume the `draw` calls with `noLoop()` and `loop()`. Beside
the drawing primitives there are noise functions backed by cached random tables
and a few scalar helpers.

This project models that core and proves what it promises:

- `bresenham.dfy` (module `Bresenham`) holds the cells that `line` paints, as pure
  functions:
  - the horizontal and vertical fast paths;
  - the integer Bresenham walk, with its error term in closed form;
  - proofs that the walk terminates at the end point, stays in the endpoints'
    bounding box, and agrees with the fast paths on axis-aligned segments.
- `framebuffer.dfy` (module `Framebuffer`) holds class `Model`:
  - a fixed `array2<RGB>` whose methods update it in place: `clear`, `pixel`,
    `line` (fast paths plus the Bresenham loop), `rect` and `circle`;
  - each method is proved to paint exactly the in-buffer cells of a shape
    predicate and to leave every other cell unchanged;
  - lemmas about the shapes (rectangle outline versus fill, the circle mask and
    its symmetries).
- `noise.dfy` (module `Noise`) holds:
  - the integer lattice hashes of value noise and gradient noise, in scalar and
    batched form;
  - the process-wide table cache keyed by (kind, seed, size), as class
    `NoiseCache`: a table is built on the first request for a key and returned
    unchanged afterwards.
- `controller.dfy` (module `Controller`) holds `handle_input`: one polled event
  record becomes the `quit` and `save` flags.
- `core.dfy` (module `Core`) holds the application driver:
  - the `_loop_enabled` flag with `noLoop`, `loop` and `isLooping`;
  - setup, the main loop, input handling, save requests and frame rendering;
  - each operation is proved against `Session`, a function from the polled input
    records to the trace of calls the driver makes (save, draw, present). The
    lemmas about that trace state what the loop guarantees.
- `utils.dfy` (module `Utils`) holds `constrain`, `lerp` and `map_range` over the
  reals.

Collaborators the source calls but that are not part of this model are parameters:
- the window's event queue becomes a sequence of `EventRecord` polls;
- the outcome of each PNG write becomes `persist: nat -> bool`;
- a sketch's callbacks become what they do (`Sketch`): the picture `setup` paints over the
  buffer it receives, and the `noLoop()` or `loop()` call each callback ends with;
- the seeded generator becomes `Prng`.

Colour components are `Channel` values in 0..255, the range the `uint8` buffer stores.

Every hash index is reduced modulo `size` before it is used. As a result, the
second copy of the doubled permutation built by `_get_gradient_table` is never
read (`Noise.DoubledPermutationUnused`). The doubling is harmless.

## Model

The contracts below are stated over these definitions, each written after the
source lines it names:
- `Bresenham.Start` and `Bresenham.Step`: the initial state and one pass of the Bresenham loop (src/kanvas/model.py:513-534);
- `Bresenham.Walk` and `Bresenham.Points`: the points the loop plots, in order (src/kanvas/model.py:520-534);
- `Bresenham.OnLine`: the cells `line` paints, fast paths included (src/kanvas/model.py:468-534);
- `Framebuffer.InRect`: the cells `rect` paints (src/kanvas/model.py:536-569);
- `Framebuffer.CircleMask` and `Framebuffer.InCircle`: the cells `circle` paints (src/kanvas/model.py:571-623);
- `Core.Iteration`, `Core.Session` and `Core.RunTrace`: the calls of one loop iteration, of the main loop and of a whole run (src/kanvas/core.py:64-201);
- `Core.AfterCall`, `Core.NextFlag` and `Core.FlagAt`: the loop flag after a callback, after a frame and at frame k (src/kanvas/core.py:34-52, 195-198).


| member | source | states |
|---|---|---|
| Framebuffer.Model.constructor | src/kanvas/model.py:422-433 | a fresh w-by-h buffer in which every cell is black |
| Framebuffer.Model.ClearGrey | src/kanvas/model.py:447-449 | `clear(v)` with only the first component sets every cell to the grey (v, v, v) |
| Framebuffer.Model.ClearRgb | src/kanvas/model.py:435-449 | `clear(r, g, b)` sets every cell of the buffer to (r, g, b) |
| Framebuffer.Model.Pixel | src/kanvas/model.py:451-466 | writes exactly cell (x, y) when it lies in the buffer; an out-of-range call changes nothing |
| Framebuffer.Model.Line | src/kanvas/model.py:468-534 | paints exactly the in-buffer cells of `OnLine` (horizontal run, vertical run or Bresenham walk) in the colour, every other cell unchanged |
| Framebuffer.Model.LineGeneral | src/kanvas/model.py:513-534 | the Bresenham loop terminates and paints exactly the in-buffer points of the walk from (x0, y0) to (x1, y1), every other cell unchanged |
| Framebuffer.Model.Rect | src/kanvas/model.py:536-569 | paints exactly the in-buffer cells on the four border lines and, with `fill`, the clipped interior; every other cell unchanged |
| Framebuffer.Model.Circle | src/kanvas/model.py:571-623 | paints exactly the in-buffer cells of the bounding box that pass the disc or tolerance-band mask; nothing when the box misses the buffer |
| Framebuffer.RectShape | src/kanvas/model.py:551-569 | for width, height >= 1 a rectangle covers exactly [x, x+w-1] × [y, y+h-1]: all of it with `fill`, only its one-cell border without |
| Framebuffer.RectOutlineExample | src/kanvas/model.py:551-555 | `rect(2, 2, 5, 4)` outlines columns 2..6 and rows 2..5 and leaves (4, 3) unpainted |
| Framebuffer.CircleIsMask | src/kanvas/model.py:589-618 | for radius >= 0 the clipping box cuts nothing off: a cell is painted iff it passes the mask |
| Framebuffer.FilledCircleMonotone | src/kanvas/model.py:613-615 | a filled circle of a larger radius covers the smaller one |
| Framebuffer.CircleSymmetric | src/kanvas/model.py:608-618 | the painted set is symmetric under reflection in either axis through the centre and under swapping the axes |
| Framebuffer.OutlineCentreEmpty | src/kanvas/model.py:616-618 | an outline of radius >= 2 leaves its centre unpainted |
| Framebuffer.CircleOutsideBuffer | src/kanvas/model.py:590-598 | a circle whose bounding box misses the buffer paints no cell of it |
| Framebuffer.CircleExamples | src/kanvas/model.py:571-623 | concrete cells inside and outside `circle(50, 50, 10, fill=True)` and the outline `circle(50, 50, 20)` |
| Bresenham.StartTracking | src/kanvas/model.py:513-518 | the initial point and `err = dx + dy` satisfy the walk invariant |
| Bresenham.StepMoves | src/kanvas/model.py:528-534 | one pass moves each coordinate one unit toward the end point exactly when its step condition holds, never past it, and the distance left strictly drops |
| Bresenham.StepProgress | src/kanvas/model.py:528-534 | one pass keeps the point in the endpoints' box and the error in closed form, and strictly shortens the distance to the end point |
| Bresenham.WalkUnfold | src/kanvas/model.py:520-534 | one loop pass plots the current point, and the rest of the walk continues from the stepped state |
| Bresenham.WalkReachesEnd | src/kanvas/model.py:520-526 | the walk starts at its first point and reaches the end point (x1, y1) |
| Bresenham.WalkInBox | src/kanvas/model.py:513-534 | every point the walk plots lies in the bounding box of the two endpoints |
| Bresenham.WalkHorizontal | src/kanvas/model.py:513-534 | on a horizontal segment the walk plots exactly the run between the cursor and x1 |
| Bresenham.WalkVertical | src/kanvas/model.py:513-534 | on a vertical segment the walk plots exactly the run between the cursor and y1 |
| Bresenham.WalkDiagonal | src/kanvas/model.py:513-534 | on a 45-degree segment the walk plots exactly the diagonal cells from the cursor to the end |
| Bresenham.LineEndpoints | src/kanvas/model.py:468-534 | both endpoints of every line are on it |
| Bresenham.LineInBox | src/kanvas/model.py:468-534 | no line paints outside its endpoints' bounding box |
| Bresenham.FastPathsMatchWalk | src/kanvas/model.py:487-511 | the horizontal and vertical fast paths paint exactly the cells the general Bresenham path would |
| Bresenham.LineDiagonal | src/kanvas/model.py:513-534 | a 45-degree line paints exactly the diagonal between its endpoints |
| Bresenham.LineDiagonalExample | src/kanvas/model.py:468-534 | `line(0, 0, 9, 9)` paints exactly the cells (i, i) for 0 <= i <= 9 |
| Noise.ValueIndex | src/kanvas/model.py:173-175 | the value-noise hash of any corner, negative ones included, is an index into the table |
| Noise.GradientIndex | src/kanvas/model.py:232-233 | the gradient-noise hash of any corner is an index into the gradient list |
| Noise.ValueIndices | src/kanvas/model.py:308-310 | the batched value hash has one entry per corner, each equal to the scalar hash |
| Noise.GradientIndices | src/kanvas/model.py:379-380 | the batched gradient hash has one entry per corner, each equal to the scalar hash |
| Noise.ValueIndexPeriodic | src/kanvas/model.py:173-175 | the value hash is periodic with period `size` in both axes |
| Noise.GradientIndexPeriodic | src/kanvas/model.py:232-233 | the gradient hash is periodic with period `size` in both axes |
| Noise.GradientIndexIsEntry | src/kanvas/model.py:232-233 | with a permutation table the trailing `% size` never changes the looked-up entry |
| Noise.DoubledPermutationUnused | src/kanvas/model.py:74-75 | the gradient hash is the same on the doubled permutation as on the single one: the second copy is never read |
| Noise.Generate | src/kanvas/model.py:47-86 | a built value table has `size` floats in [0, 1); a gradient table has a permutation of 0..size-1 repeated twice and `size` directions, the i-th at angle 2πi/size |
| Noise.GradientLookupInRange | src/kanvas/model.py:55-87 | every gradient hash of a built table indexes its direction list, and equals the hash on the undoubled permutation |
| Noise.NoiseCache.constructor | src/kanvas/model.py:31-32 | the cache starts empty and every entry equals the table built for its key |
| Noise.NoiseCache.GetNoiseTable | src/kanvas/model.py:35-52 | returns the value table built for (seed, size); it is built and stored on the first request, and a later request leaves the cache unchanged |
| Noise.NoiseCache.GetGradientTable | src/kanvas/model.py:55-87 | returns the gradient table built for (seed, size); it is built and stored on the first request, and a later request leaves the cache unchanged |
| Controller.HandleInput | src/kanvas/controller.py:20-40 | `quit` iff the window was closed or escape was pressed; `save` iff `s` was pressed |
| Controller.NothingByDefault | src/kanvas/controller.py:32-40 | an empty poll requests neither quit nor save |
| Controller.QuitAndSaveTogether | src/kanvas/controller.py:34-38 | a close event or escape together with `s` requests both |
| Controller.KeyUpIgnored | src/kanvas/controller.py:31-40 | released keys never influence the result |
| Controller.OtherKeysIgnored | src/kanvas/controller.py:34-38 | pressing any other key changes neither flag |
| Core.LoopControl.constructor | src/kanvas/core.py:32 | looping is enabled when the module loads |
| Core.LoopControl.NoLoop | src/kanvas/core.py:34-42 | afterwards looping is disabled, whatever it was |
| Core.LoopControl.Loop | src/kanvas/core.py:45-52 | afterwards looping is enabled, whatever it was |
| Core.LoopControl.IsLooping | src/kanvas/core.py:55-61 | reports the flag and changes nothing |
| Core.LoopControl.Perform | src/kanvas/core.py:34-52 | a callback ending in `noLoop()` clears the flag, one ending in `loop()` sets it, any other leaves it as it was |
| Core.FirstQuit | src/kanvas/core.py:129-133 | the first poll at or after i that asks to quit: no earlier one does, and it does when it exists |
| Core.HandleSaveRequest | src/kanvas/core.py:167-177 | asks the image writer to save under the window title and records its outcome, success or failure |
| Core.HandleInputEvents | src/kanvas/core.py:147-164 | keeps running iff neither close nor escape was seen; saves iff running and `s` was pressed |
| Core.RenderFrame | src/kanvas/core.py:180-201 | calls `draw` with the frame number only when looping is enabled, then presents; only `draw` can change the flag |
| Core.RunMainLoop | src/kanvas/core.py:111-144 | the loop performs exactly the calls of `Session` up to the first quit poll, counts that many frames, and leaves the flag as the draws set it |
| Core.InitializeApplication | src/kanvas/core.py:90-108 | a fresh width-by-height model, handed black to `setup`, holds afterwards the picture `setup` paints over the black one; setup is called once and the flag is as setup left it |
| Core.Run | src/kanvas/core.py:64-87 | the whole run performs exactly `RunTrace`: setup, the main loop, shutdown |
| Core.SessionFrames | src/kanvas/core.py:111-144 | every loop call belongs to a frame before the first quit; frame numbers never decrease; no frame is drawn twice; each save is followed at once by rendering its frame |
| Core.SessionSaves | src/kanvas/core.py:147-164 | the writer is asked to save at frame k iff k is before the first quit and that poll pressed `s` |
| Core.SessionWithin | src/kanvas/core.py:111-144 | every call the loop makes carries a frame number from i up to, but excluding, the first quit poll |
| Core.SessionPresentsEveryFrame | src/kanvas/core.py:180-201 | every frame from i up to the first quit poll is presented |
| Core.SessionDrawsIffLooping | src/kanvas/core.py:180-201 | a frame before the first quit is drawn iff the loop flag is set at that frame |
| Core.PrefixThenSession | src/kanvas/core.py:111-144 | the calls of the first k iterations followed by the loop run from frame k, with the flag as those iterations left it, are the whole loop run |
| Core.NoLoopIsFinal | src/kanvas/core.py:195-198 | once looping is off it stays off, since `draw` is no longer called to switch it back on |
| Core.StaticSketch | src/kanvas/core.py:34-42 | if setup calls `noLoop()`, `draw` is never called, yet every frame up to the quit is presented |
| Core.SetupFirstAndOnce | src/kanvas/core.py:64-87 | setup is the first call and the only one of its kind, shutdown is the last, and every call between is made by a loop iteration |
| Core.IterationShape | src/kanvas/core.py:130-141 | one iteration's calls all carry its frame number and end with the presentation; a save comes first and is followed at once by a render |
| Core.IterationCalls | src/kanvas/core.py:130-141 | one iteration presents its frame, draws it iff looping is enabled, and saves it iff its poll pressed `s` |
| Utils.Constrain | src/kanvas/utils.py:37-53 | the result lies in [low, high] and clamps values outside it to the nearer bound; values inside are unchanged; with low > high it is low |
| Utils.Lerp | src/kanvas/utils.py:56-72 | amount 0 gives `start`, amount 1 gives `stop` |
| Utils.MapRange | src/kanvas/utils.py:10-34 | maps `start1` to `start2` and `stop1` to `stop2`; an empty source range is refused |
| Utils.LerpExamples | src/kanvas/utils.py:56-72 | the midpoint, a quarter point, a symmetric range, and extrapolation outside [0, 1] |
| Utils.LerpBetween | src/kanvas/utils.py:56-72 | for an amount in [0, 1] the result lies between `start` and `stop` |
| Utils.MapRangeIsLerp | src/kanvas/utils.py:10-34 | `map_range` is `lerp` over the target range at the value's relative position in the source range |
| Utils.MapRangeRoundTrip | src/kanvas/utils.py:10-34 | mapping into a non-empty range and back returns the original value |
| Utils.MapRangeExamples | src/kanvas/utils.py:10-34 | mid-range, a reversed target, a source range across zero, and extrapolation |
| Utils.ConstrainExamples | src/kanvas/utils.py:37-53 | values inside, below and above the range, including a range below zero |

## Left out

- Floating-point noise evaluation (`noise`, `p_noise`, `noise_array`, `p_noise_array`: smoothstep, fade and bilinear interpolation) is not modelled. Only the integer hashes and the tables they index are.
- Noise.Generate: the float values come from an abstract generator `Prng`, which promises `size` floats in [0, 1) and a permutation. Python's Mersenne Twister, and the exact shuffle for a given seed, are not modelled.
- Noise.Generate: gradient vectors are represented by their angle index, `Direction(i, size)`, not by `(cos, sin)` pairs. The trigonometry is floating point.
- Core.HandleSaveRequest: the outcome of writing the PNG file is a parameter. The file name the view layer derives from the title, and the console messages, are not modelled.
- Core.RenderFrame: `begin_frame`, `end_frame` and `present_framebuffer` appear only as the `Present` call in the trace. The pixels the sketch's `draw` writes are not modelled, only its effect on the loop flag.
- Core.InitializeApplication: `setup`'s drawing is given as a function from the picture it receives to the picture it leaves (`Sketch.setupPaint`). The individual calls it makes on the model are not modelled.
- Core.Run / Core.SetupFirstAndOnce: `setup` and `draw` are assumed to return normally. In the source an exception from either leaves `run` before `view.shutdown()`, since there is no `try`/`finally`; the model's trace always ends with `Shutdown`.
- Core.RunMainLoop: requires a quit poll somewhere in the finite poll sequence. A session that never quits is an endless loop in the source and is not modelled.
- `_FrameTimer`, `delta_ms` and frame-rate limiting are wall-clock timing and are not modelled. `target_fps` is therefore not a parameter.
- view.py (window creation, event polling, PNG writing, presentation) is I/O. It enters the model only through the parameters named above.
- Framebuffer.Model.ClearRgb: `clear(r, g)` with `b` omitted makes numpy raise on the tuple containing `None`. That error path is not modelled; the two well-formed forms are.
- Framebuffer.Model.Pixel: colour components outside 0..255 are excluded by the `Channel` type. The source's `uint8` storage would wrap or reject them.
- Utils.Lerp / Utils.MapRange: Python floats are modelled as exact reals. IEEE rounding can break the stated identities: `lerp(1e16, 1.0, 1.0)` gives 0.0, not `stop`. The same holds for `MapRange`'s endpoint mapping, `Utils.LerpBetween` and `Utils.MapRangeRoundTrip`.
- Utils.MapRange: `map_range` with `stop1 == start1` raises `ZeroDivisionError` in the source. The model refuses that input with a precondition instead of modelling the exception.
- Framebuffer.Model.constructor: the sizes are `nat`. numpy raises for a negative size, and that error path is not modelled.
- `dist`, `rgb_to_hsv`, `hsv_to_rgb`, the command-line entry point and the demo sketches are outside the modelled core.
