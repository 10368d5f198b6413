/** `ImageView`: a bitmap shown in a window under one of four scale modes.

    The bitmap handle is a flag.  What the imaging libraries report (a
    decoded size, a failed conversion) is an outcome parameter of each
    loader.  Painting is reduced to where the image is drawn: the
    destination rectangle computed from the client size and the image size
    in C++ `int` arithmetic, whose division truncates toward zero. */
module ImageView {
  import opened Wrappers

  const Int32Min: int := -0x8000_0000
  const Int32Max: int := 0x7FFF_FFFF

  type i32 = x: int | Int32Min <= x <= Int32Max
  type u32 = x: int | 0 <= x < 0x1_0000_0000

  /** `ScaleMode`. */
  datatype ScaleMode = ActualSize | Stretch | AspectFit | Center

  /** The image state: whether a bitmap is held, its recorded size, and
      the scale mode. */
  datatype View = View(bitmap: bool, width: i32, height: i32, mode: ScaleMode)

  /** The constructed view: no image, fitted with its aspect ratio kept. */
  function NewView(): (r: View)
    ensures !HasImage(r) && r.width == 0 && r.height == 0 && r.mode == AspectFit
  {
    View(false, 0, 0, AspectFit)
  }

  /** `hasImage`. */
  predicate HasImage(v: View) {
    v.bitmap
  }

  /** `cleanup`: the bitmap released and the size reset. */
  function Cleanup(v: View): (r: View)
    ensures !HasImage(r) && r.width == 0 && r.height == 0 && r.mode == v.mode
  {
    v.(bitmap := false, width := 0, height := 0)
  }

  /** `clear`: the same as `cleanup`, plus a repaint. */
  function ClearImage(v: View): (r: View)
    ensures !HasImage(r) && r.width == 0 && r.height == 0 && r.mode == v.mode
  {
    Cleanup(v)
  }

  /** `setScaleMode`. */
  function SetScaleMode(v: View, mode: ScaleMode): (r: View)
    ensures r.mode == mode
    ensures HasImage(r) == HasImage(v) && r.width == v.width && r.height == v.height
  {
    v.(mode := mode)
  }

  /** `(int)` applied to an unsigned 32-bit size: values above the largest
      `int` wrap to negative ones. */
  function ToInt(w: u32): (r: i32)
    ensures w <= Int32Max ==> r == w
    ensures w > Int32Max ==> r == w - 0x1_0000_0000
  {
    if w <= Int32Max then w else w - 0x1_0000_0000
  }

  /** How far a GDI+ load (`loadFromFile`, `loadFromMemory`) gets: a
      failure before a bitmap is decoded (library, start-up, stream or
      decoding), a decoded bitmap of the given size that cannot be
      converted to a GDI bitmap, or full success. */
  datatype GdiLoad = NotDecoded | ConvertFailed(w: u32, h: u32) | Loaded(w: u32, h: u32)

  /** `loadFromFile` and `loadFromMemory`: everything is cleared first; a
      decoded size is recorded before the conversion, so a failed
      conversion leaves a size without an image. */
  function LoadGdi(v: View, outcome: GdiLoad): (r: (View, bool))
    ensures r.1 <==> outcome.Loaded?
    ensures HasImage(r.0) <==> r.1
    ensures outcome.NotDecoded? ==> r.0 == Cleanup(v)
    ensures !outcome.NotDecoded? ==> r.0.width == ToInt(outcome.w) && r.0.height == ToInt(outcome.h)
    ensures r.0.mode == v.mode
  {
    var c := Cleanup(v);
    match outcome
    case NotDecoded => (c, false)
    case ConvertFailed(w, h) => (c.(width := ToInt(w), height := ToInt(h)), false)
    case Loaded(w, h) => (c.(bitmap := true, width := ToInt(w), height := ToInt(h)), true)
  }

  /** A failed load never leaves an image, yet after a failed conversion
      the reported size can be non-zero. */
  lemma FailedLoadNoImage(v: View, outcome: GdiLoad)
    requires !LoadGdi(v, outcome).1
    ensures !HasImage(LoadGdi(v, outcome).0)
    ensures outcome.ConvertFailed? && outcome.w == 640 ==> LoadGdi(v, outcome).0.width == 640
  {
  }

  /** `loadFromResource`: the bitmap's own size when `LoadImage` succeeds
      (`size`), otherwise nothing. */
  function LoadResource(v: View, size: Option<(i32, i32)>): (r: (View, bool))
    ensures r.1 <==> size.Some?
    ensures HasImage(r.0) <==> r.1
    ensures size.None? ==> r.0 == Cleanup(v)
    ensures size.Some? ==> r.0 == View(true, size.value.0, size.value.1, v.mode)
  {
    match size
    case None => (Cleanup(v), false)
    case Some((w, h)) => (View(true, w, h, v.mode), true)
  }

  // ---------------------------------------------------------------------
  // Placement
  // ---------------------------------------------------------------------

  /** C++ `/` on `int`: the quotient truncated toward zero. */
  function TDiv(a: int, b: int): (q: int)
    requires b > 0
    ensures a >= 0 ==> q == a / b
    ensures a < 0 ==> q == -((-a) / b)
  {
    if a >= 0 then a / b else -((-a) / b)
  }

  /** Where the image is drawn: top-left corner and size. */
  datatype Rect = Rect(x: int, y: int, w: int, h: int)

  /** The outcome of painting: nothing without a bitmap, the destination
      rectangle, or a fit computed in floating point (left out). */
  datatype Drawing = NoImage | Drawn(dest: Rect) | FittedInFloatingPoint

  /** Half the free space, as the source computes it. */
  function Offset(client: int, image: int): int {
    TDiv(client - image, 2)
  }

  /** The destination rectangle for a client area of `cw` by `ch`. */
  function Place(v: View, cw: int, ch: int): (r: Drawing)
    ensures !HasImage(v) <==> r.NoImage?
    ensures HasImage(v) && v.mode == Stretch ==> r == Drawn(Rect(0, 0, cw, ch))
    ensures HasImage(v) && v.mode == ActualSize ==>
      && r.Drawn? && r.dest.w == v.width && r.dest.h == v.height
      && r.dest.x >= 0 && r.dest.y >= 0
    ensures HasImage(v) && v.mode == ActualSize ==>
      && r.dest.x == (if cw >= v.width then (cw - v.width) / 2 else 0)
      && r.dest.y == (if ch >= v.height then (ch - v.height) / 2 else 0)
    ensures HasImage(v) && v.mode == Center ==>
      && r.Drawn? && r.dest.w == v.width && r.dest.h == v.height
    ensures HasImage(v) && v.mode == Center ==>
      && (cw >= v.width ==> 0 <= (cw - v.width) - 2 * r.dest.x <= 1)
      && (cw < v.width ==> 0 <= 2 * r.dest.x - (cw - v.width) <= 1)
      && (ch >= v.height ==> 0 <= (ch - v.height) - 2 * r.dest.y <= 1)
      && (ch < v.height ==> 0 <= 2 * r.dest.y - (ch - v.height) <= 1)
    ensures HasImage(v) && v.mode == AspectFit ==> r == FittedInFloatingPoint
  {
    if !v.bitmap then NoImage
    else match v.mode
      case ActualSize =>
        var x := Offset(cw, v.width);
        var y := Offset(ch, v.height);
        Drawn(Rect(if x < 0 then 0 else x, if y < 0 then 0 else y, v.width, v.height))
      case Stretch => Drawn(Rect(0, 0, cw, ch))
      case AspectFit => FittedInFloatingPoint
      case Center => Drawn(Rect(Offset(cw, v.width), Offset(ch, v.height), v.width, v.height))
  }

  /** A centred image that fits is centred to within one pixel: the space
      left of it equals the space right of it, or falls one short. */
  lemma CenterBalanced(v: View, cw: int, ch: int)
    requires HasImage(v) && v.mode == Center
    requires v.width <= cw && v.height <= ch
    ensures var d := Place(v, cw, ch).dest;
      && 0 <= (cw - d.w - d.x) - d.x <= 1
      && 0 <= (ch - d.h - d.y) - d.y <= 1
  {
  }

  /** ACTUAL_SIZE and CENTER draw the same rectangle whenever the image
      fits in the client area. */
  lemma ActualMatchesCenterWhenFits(v: View, cw: int, ch: int)
    requires HasImage(v) && v.width <= cw && v.height <= ch
    ensures Place(v.(mode := ActualSize), cw, ch) == Place(v.(mode := Center), cw, ch)
  {
  }

  /** An image wider than the client is pinned to the left edge by
      ACTUAL_SIZE but shifted left by CENTER, with the shift rounded toward
      zero: 3 pixels too wide moves it 1 pixel, not 2. */
  lemma CenterCropsTruncating(v: View)
    requires HasImage(v) && v.width == 13 && v.height == 10
    ensures Place(v.(mode := Center), 10, 10) == Drawn(Rect(-1, 0, 13, 10))
    ensures Place(v.(mode := ActualSize), 10, 10) == Drawn(Rect(0, 0, 13, 10))
  {
  }

  /** A larger image under CENTER starts left of the client and ends right
      of it, overhanging both sides by about the same amount. */
  lemma CenterOverhangs(v: View, cw: int)
    requires HasImage(v) && v.mode == Center && v.width > cw + 1
    ensures var d := Place(v, cw, 0).dest;
      d.x < 0 && d.x + d.w > cw && 0 <= (d.x + d.w - cw) - (-d.x) <= 1
  {
  }
}
