/**
 The per-frame work of blur.py: when the face mesh finds a face, build a mask
 of the face polygon, filter the frame with the filter the mode selects, and
 put the filtered face over the unfiltered background; when it finds none,
 show the captured frame. The image library calls are left uninterpreted.
 */
module FrameDispatch {
  import opened Wrappers
  import opened FilterMode

  /** A face-mesh landmark: its coordinates as fractions of the frame's width and height. */
  datatype Landmark = Landmark(x: real, y: real)

  /** A pixel position (column, row). */
  datatype Point = Point(x: int, y: int)

  /**
   The library calls blur.py makes on a frame F and a single-channel mask M,
   each an uninterpreted total function.
   */
  datatype Vision<!F, !M> = Vision(
    height: F -> nat,                       // frame.shape[0]
    width: F -> nat,                        // frame.shape[1]
    gaussianBlur: F -> F,                   // 15x15 Gaussian blur
    medianBlur: F -> F,                     // median blur of aperture 15
    boxBlur: F -> F,                        // 15x15 normalised box blur
    sobel: F -> F,                          // |Sobel x + Sobel y|, kernel size 5, saturated to 8 bits
    prewitt: F -> F,                        // |Prewitt x + Prewitt y|, saturated to 8 bits
    laplacian: F -> F,                      // |Laplacian|, saturated to 8 bits
    polygonMask: (nat, nat, seq<Point>) -> M, // an h x w zero mask with the polygon filled with 255
    maskNot: M -> M,                        // bitwise not of a mask
    maskedCopy: (F, M) -> F,                // the frame where the mask is set, zero elsewhere
    add: (F, F) -> F                        // saturating pixel-wise sum
  )

  /** Python's `int(r)` on a number: truncation toward zero. */
  function TruncateToInt(r: real): (i: int)
    ensures 0.0 <= r ==> i as real <= r < i as real + 1.0
    ensures r < 0.0 ==> i as real - 1.0 < r <= i as real
  {
    if r >= 0.0 then r.Floor else -((-r).Floor)
  }

  /** `(int(lm.x * w), int(lm.y * h))`: a landmark scaled to pixel coordinates. */
  function ToPixel(lm: Landmark, w: nat, h: nat): (p: Point)
    ensures 0.0 <= lm.x < 1.0 && w > 0 ==> 0 <= p.x < w
    ensures 0.0 <= lm.y < 1.0 && h > 0 ==> 0 <= p.y < h
  {
    ScaledInRange(lm.x, w);
    ScaledInRange(lm.y, h);
    Point(TruncateToInt(lm.x * w as real), TruncateToInt(lm.y * h as real))
  }

  /** A fraction in [0, 1) of a positive size truncates to an index below that size. */
  lemma ScaledInRange(t: real, n: nat)
    ensures 0.0 <= t < 1.0 && n > 0 ==> 0 <= TruncateToInt(t * n as real) < n
  {
    if 0.0 <= t < 1.0 && n > 0 {
      assert t * n as real < 1.0 * n as real;
    }
  }

  /** The face polygon: every landmark of the face, in order, in pixel coordinates. */
  function FacePoints(lms: seq<Landmark>, w: nat, h: nat): (pts: seq<Point>)
    ensures |pts| == |lms|
  {
    seq(|lms|, i requires 0 <= i < |lms| => ToPixel(lms[i], w, h))
  }

  /**
   The loop that appends one pixel point per landmark to `face_points`.
   */
  method CollectFacePoints(lms: seq<Landmark>, w: nat, h: nat) returns (pts: seq<Point>)
    ensures |pts| == |lms|
    ensures forall i :: 0 <= i < |lms| ==> pts[i] == ToPixel(lms[i], w, h)
  {
    pts := [];
    for i := 0 to |lms|
      invariant |pts| == i
      invariant forall j :: 0 <= j < i ==> pts[j] == ToPixel(lms[j], w, h)
    {
      pts := pts + [ToPixel(lms[i], w, h)];
    }
  }

  /** When every landmark lies inside the unit square, every polygon point lies inside the frame. */
  lemma FacePointsInFrame(lms: seq<Landmark>, w: nat, h: nat, i: nat)
    requires w > 0 && h > 0 && i < |lms|
    requires forall j :: 0 <= j < |lms| ==> 0.0 <= lms[j].x < 1.0 && 0.0 <= lms[j].y < 1.0
    ensures |FacePoints(lms, w, h)| == |lms|
    ensures 0 <= FacePoints(lms, w, h)[i].x < w && 0 <= FacePoints(lms, w, h)[i].y < h
  {
  }

  /**
   The filtered frame: the if/elif chain comparing `filter_mode` with each
   filter's name, falling through to the unfiltered frame.
   */
  function SelectFiltered<F, M>(lib: Vision<F, M>, name: Option<string>, frame: F): (r: F)
    ensures name.None? ==> r == frame
    ensures name.Some? && name.value !in FilterNames ==> r == frame
  {
    if name == Some("gaussian") then lib.gaussianBlur(frame)
    else if name == Some("median") then lib.medianBlur(frame)
    else if name == Some("average") then lib.boxBlur(frame)
    else if name == Some("sobel") then lib.sobel(frame)
    else if name == Some("prewitt") then lib.prewitt(frame)
    else if name == Some("laplacian") then lib.laplacian(frame)
    else frame
  }

  /** The library call that implements each filter. */
  function Kernel<F, M>(lib: Vision<F, M>, f: Filter): F -> F
  {
    match f
    case Gaussian => lib.gaussianBlur
    case Median => lib.medianBlur
    case Average => lib.boxBlur
    case Sobel => lib.sobel
    case Prewitt => lib.prewitt
    case Laplacian => lib.laplacian
  }

  /**
   The chain selects exactly the filter the mode names: no filter leaves the
   frame as it is, and a filter mode applies that filter's kernel and no other.
   */
  lemma SelectionFollowsMode<F, M>(lib: Vision<F, M>, m: Mode, frame: F)
    ensures m == Off ==> SelectFiltered(lib, Name(m), frame) == frame
    ensures m.On? ==> SelectFiltered(lib, Name(m), frame) == Kernel(lib, m.filter)(frame)
  {
  }

  /** `np.zeros((h, w))` with the face polygon filled in, sized from `frame.shape`. */
  function FaceMask<F, M>(lib: Vision<F, M>, frame: F, face: seq<Landmark>): M
  {
    var h, w := lib.height(frame), lib.width(frame);
    lib.polygonMask(h, w, FacePoints(face, w, h))
  }

  /** The filtered frame inside the mask added to the captured frame outside it. */
  function Composite<F, M>(lib: Vision<F, M>, frame: F, filtered: F, mask: M): F
  {
    lib.add(lib.maskedCopy(frame, lib.maskNot(mask)), lib.maskedCopy(filtered, mask))
  }

  /**
   The frame shown for one captured frame. `faces` stands for the face mesh's
   `multi_face_landmarks`, empty when no face was found; only the first face is used.
   */
  function Displayed<F, M>(lib: Vision<F, M>, m: Mode, frame: F, faces: seq<seq<Landmark>>): (shown: F)
    ensures |faces| == 0 ==> shown == frame
    ensures |faces| > 0 && m == Off ==> shown == Composite(lib, frame, frame, FaceMask(lib, frame, faces[0]))
    ensures |faces| > 0 && m.On? ==>
              shown == Composite(lib, frame, Kernel(lib, m.filter)(frame), FaceMask(lib, frame, faces[0]))
  {
    SelectionFollowsMode(lib, m, frame);
    if |faces| > 0 then
      var mask := FaceMask(lib, frame, faces[0]);
      Composite(lib, frame, SelectFiltered(lib, Name(m), frame), mask)
    else
      frame
  }

  /** Without a face the captured frame is shown, whatever the mode. */
  lemma NoFaceIgnoresMode<F, M>(lib: Vision<F, M>, m1: Mode, m2: Mode, frame: F)
    ensures Displayed(lib, m1, frame, []) == Displayed(lib, m2, frame, []) == frame
  {
  }

  /**
   With no filter the captured frame is shown, face or not, provided that
   adding the frame outside the mask to the frame inside it gives the frame
   back (as it does for the 0/255 masks the polygon fill produces).
   */
  lemma OffShowsCapturedFrame<F, M>(lib: Vision<F, M>, frame: F, faces: seq<seq<Landmark>>)
    requires |faces| > 0 ==> Composite(lib, frame, frame, FaceMask(lib, frame, faces[0])) == frame
    ensures Displayed(lib, Off, frame, faces) == frame
  {
  }

  /** Only the first face matters: further faces change nothing. */
  lemma FirstFaceOnly<F, M>(lib: Vision<F, M>, m: Mode, frame: F, face: seq<Landmark>, more: seq<seq<Landmark>>)
    ensures Displayed(lib, m, frame, [face] + more) == Displayed(lib, m, frame, [face])
  {
  }

  /** One pass of the loop body from the face test to the composite, computed as blur.py does. */
  method ProcessFrame<F, M>(lib: Vision<F, M>, m: Mode, frame: F, faces: seq<seq<Landmark>>) returns (shown: F)
    ensures |faces| == 0 ==> shown == frame
    ensures shown == Displayed(lib, m, frame, faces)
  {
    if |faces| > 0 {
      var face := faces[0];
      var h, w := lib.height(frame), lib.width(frame);
      var pts := CollectFacePoints(face, w, h);
      assert pts == FacePoints(face, w, h);
      var mask := lib.polygonMask(h, w, pts);
      var filtered := SelectFiltered(lib, Name(m), frame);
      var faceRegion := lib.maskedCopy(filtered, mask);
      var inverseMask := lib.maskNot(mask);
      var background := lib.maskedCopy(frame, inverseMask);
      shown := lib.add(background, faceRegion);
    } else {
      shown := frame;
    }
  }
}
