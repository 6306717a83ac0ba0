# Filter-mode state machine of the webcam face-blur script

`blur.py` reads webcam frames in a loop, finds a face with a face-mesh
detector, and applies one of six image filters (Gaussian, median and average
blur; Sobel, Prewitt and Laplacian edges) to the face region only. The
filter is chosen at run time from the keyboard. Keys "1" to "6" each toggle
one filter, and "q" quits.

This project models the script's own logic in Dafny and proves properties
of it:

- the `filter_mode` variable and its key transitions;
- the choice of filter for each frame;
- the branch between a frame with a face and one without;
- how the capture loop ends.

The image-library calls are not modelled. They are the filters, the polygon
fill and the mask arithmetic. In the model they are fields of a `Vision`
record of uninterpreted functions, so the model fixes only which call is
made on which frame.

Files:

- `wrappers.dfy`: `Option`, which stands for Python's `None` or a value.
- `filter_mode.dfy` (module `FilterMode`):
  - the `Filter` and `Mode` datatypes;
  - key codes masked to eight bits;
  - the Python string value of the mode;
  - the key transition `Step` and its fold `Press` over a run of keys.
- `frame_dispatch.dfy` (module `FrameDispatch`):
  - landmark-to-pixel conversion;
  - the loop that builds the face polygon;
  - the if/elif chain that selects the filtered frame;
  - the face / no-face branch that decides what is shown.
- `capture_loop.dfy` (module `CaptureLoop`):
  - the loop over a finite sequence of per-pass inputs;
  - the function `RunFrom`, which specifies that loop;
  - the method `Run`, which follows blur.py pass by pass and is proved equal to `RunFrom`.

## Model

| member | source | states |
|---|---|---|
| `FilterMode.InitialModeIsNone` | blur.py:17 | The mode before the loop starts is `None`: no filter. |
| `FilterMode.KeyCode` | blur.py:85 | The key code compared is the raw code reduced to eight bits (0 to 255), congruent to it modulo 256. It is unchanged for codes already in range. "No key pressed" (-1) becomes 255. |
| `FilterMode.Name` | blur.py:17 | `filter_mode` is `None` exactly for the no-filter mode. Otherwise it is one of the six filter names, so it always holds one of seven values. |
| `FilterMode.NameInjective` | blur.py:52-70 | Two modes have the same Python value only if they are the same mode. So the source's string comparisons decide the mode. |
| `FilterMode.NameOnto` | blur.py:17 | Each of the seven Python values is the value of some mode. |
| `FilterMode.KeyFor` | blur.py:88-99 | The key bound to each filter is one of the digits "1" to "6". |
| `FilterMode.FilterFor` | blur.py:88-99 | A key toggles a filter exactly when it is a digit "1" to "6". The filter it toggles is the one bound to that key, and no other filter is bound to it. |
| `FilterMode.Toggle` | blur.py:89-99 | The toggle switches a filter on exactly when it was not the active one, and back to `None` exactly when it was. |
| `FilterMode.Step` | blur.py:88-101 | A key that toggles no filter (including "q" and "no key") leaves the mode as it was. A digit toggles its own filter. |
| `FilterMode.Press` | blur.py:19-101 | Folding the key transition over a run of keys ends at the starting mode, at `None`, or at the filter of one of the keys pressed. Further properties are stated by `PressRepeatedly`, `PressIgnoresOtherKeys` and `PressAppend`. |
| `FilterMode.StepDigit` | blur.py:88-99 | After digit k the mode is filter k or `None`. It is `None` exactly when filter k was already on. |
| `FilterMode.StepOtherKey` | blur.py:88-101 | Any key other than "1" to "6" leaves the mode unchanged. This includes "q", which breaks out of the loop instead. |
| `FilterMode.StepTwice` | blur.py:88-99 | Pressing a digit twice gives back the starting mode exactly when that mode was `None` or the digit's own filter. From any other filter it ends at `None`. |
| `FilterMode.EveryFilterReachable` | blur.py:88-99 | Each filter is switched on by one press of its key from the initial mode. |
| `FilterMode.PressRepeatedly` | blur.py:88-99 | Pressing one digit n times, starting from `None` or from its own filter, gives the starting mode for even n. For odd n it gives the toggled mode. |
| `FilterMode.PressIgnoresOtherKeys` | blur.py:88-101 | A run of keys containing no digit "1" to "6" leaves the mode unchanged. |
| `FilterMode.PressAppend` | blur.py:19-101 | Pressing two runs of keys in turn is the same as pressing their concatenation. |
| `FrameDispatch.TruncateToInt` | blur.py:44 | Python's `int()` truncates toward zero. For a non-negative value the result is at most the value and within one below it; a negative value is mirrored. |
| `FrameDispatch.ToPixel` | blur.py:44 | A landmark whose normalised coordinates lie in [0, 1) lands on a pixel inside a frame of positive width and height. |
| `FrameDispatch.ScaledInRange` | blur.py:44 | A fraction in [0, 1) of a positive size truncates to an index below that size. |
| `FrameDispatch.FacePoints` | blur.py:42-45 | The face polygon has one point per landmark. Its other properties are stated by `CollectFacePoints` and `FacePointsInFrame`. |
| `FrameDispatch.CollectFacePoints` | blur.py:42-45 | The append loop yields one point per landmark, in landmark order. Each point is that landmark's pixel position. |
| `FrameDispatch.FacePointsInFrame` | blur.py:42-45 | When every landmark lies in the unit square, every polygon point lies inside the frame. |
| `FrameDispatch.SelectFiltered` | blur.py:52-70 | When the mode is `None`, or a value that matches no filter name, the "filtered" frame is the input frame itself. |
| `FrameDispatch.Kernel` | blur.py:53-68 | Definition: the library call behind each filter. Its properties are stated by `SelectionFollowsMode` and `Displayed`. |
| `FrameDispatch.SelectionFollowsMode` | blur.py:52-70 | The chain applies exactly the kernel of the filter the mode names. With no filter it gives the frame unchanged. |
| `FrameDispatch.FaceMask` | blur.py:38-49 | Definition: the polygon mask sized from the frame's shape. Its properties are stated by `FacePointsInFrame` and `Displayed`. |
| `FrameDispatch.Composite` | blur.py:73-76 | Definition: the filtered frame inside the mask added to the captured frame outside it. Its properties are stated by `Displayed` and `OffShowsCapturedFrame`. |
| `FrameDispatch.Displayed` | blur.py:33-79 | With no face detected the shown frame is the captured frame. With a face, the first face's polygon region gets exactly the kernel of the current mode's filter, or the unfiltered frame when the mode is off, over the unfiltered background. |
| `FrameDispatch.NoFaceIgnoresMode` | blur.py:77-79 | With no face detected, the shown frame is the captured frame whatever the mode. |
| `FrameDispatch.OffShowsCapturedFrame` | blur.py:69-76 | With no filter the captured frame is shown, face or not. This needs the mask composite to restore an unfiltered frame. |
| `FrameDispatch.FirstFaceOnly` | blur.py:33-35 | Only the first detected face affects the shown frame. |
| `FrameDispatch.ProcessFrame` | blur.py:33-79 | The statements of one pass, from the face test to the composite, compute `Displayed`. With no face they give the captured frame. |
| `CaptureLoop.Stops` | blur.py:22-24 | A failed read always stops the loop. A pass that stops after reading a frame has a key that toggles no filter, so the quit key never collides with a filter key. |
| `CaptureLoop.FirstStop` | blur.py:21-24 | The first stopping pass is within range. Every earlier pass read a frame and got a key other than "q", and the pass at that index fails its read or gets "q". |
| `CaptureLoop.RunFrom` | blur.py:19-101 | The loop shows at most one frame per pass. It shows one for every pass when it runs out of passes, and at least one when it ends on "q". Further properties are stated by `RunFromEnds`, `RunFromShown` and `RunFromIgnoresLaterEvents`. |
| `CaptureLoop.Run` | blur.py:17-101 | The imperative loop, starting from `filter_mode = None`, produces exactly the trace `RunFrom` specifies: frames shown, final mode, exit reason. |
| `CaptureLoop.RunFromEnds` | blur.py:19-101 | The loop ends on a failed read or on "q", whichever comes first. It ends on running out of passes only if neither occurs. It shows one frame per earlier pass, plus the frame of the "q" pass. The final mode is the fold of the keys before the stopping pass, so neither "q" nor a failed read changes the mode. |
| `CaptureLoop.RunFromShown` | blur.py:33-99 | The i-th shown frame comes from pass i. It is computed with the mode produced by the keys of passes 0 to i-1, so a key takes effect from the next frame on. |
| `CaptureLoop.RunFromIgnoresLaterEvents` | blur.py:22-24 | Nothing after the stopping pass is ever read. |

## Left out

- Opening the camera and the early exit when it cannot be opened (blur.py:10-14) are device I/O. The model starts at the loop.
- The `while True` loop has no bound. The model runs it over a finite sequence of per-pass inputs, so it has a third way to end, `EventsExhausted`, which the script does not have.
- Frame capture (`cap.read`), the colour conversion, the face-mesh call, `cv2.imshow` and `cv2.waitKey` are I/O or foreign code. The model takes their results as inputs to each pass: the frame, the landmark list, and the raw key code. Shown frames are collected in the trace.
- The six filter kernels, `convertScaleAbs`, `fillPoly` and the mask operations `bitwise_and`, `bitwise_not` and `add` are library code on floating-point and 8-bit images. They are uninterpreted fields of `Vision`.
- The printed error messages (blur.py:13, blur.py:23) and the cleanup calls (blur.py:104-105) are not modelled.
- ToPixel: computes `lm.x * w` exactly over the reals. Floating-point rounding of the product before truncation is not modelled, and neither is the narrowing of the points to 32-bit integers (blur.py:48); both are harmless for landmarks near the unit square.
- OffShowsCapturedFrame: the composite's meaning is OpenCV's, so the lemma assumes, as a precondition, that compositing an unfiltered frame through the face mask gives the frame back.

