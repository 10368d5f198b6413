/** `ProgressBar`: a range and a position kept by the object, mirrored
    into a native progress control once one exists.

    The native control is a flag plus, where the object reads the
    control's position back, that position as a parameter.  Fields are
    C++ `int`s, so every stored value is a 32-bit signed integer. */
module ProgressBar {
  const Int32Min: int := -0x8000_0000
  const Int32Max: int := 0x7FFF_FFFF

  type i32 = x: int | Int32Min <= x <= Int32Max

  /** The two's-complement wrap-around of a 32-bit `int` addition. */
  function Wrap32(x: int): (r: i32)
    ensures Int32Min <= x <= Int32Max ==> r == x
    ensures (r - x) % 0x1_0000_0000 == 0
  {
    (x - Int32Min) % 0x1_0000_0000 + Int32Min
  }

  /** The object's state.  `widget` says the native control exists. */
  datatype Bar = Bar(minimum: i32, maximum: i32, value: i32, widget: bool)

  /** The range is never empty. */
  predicate Valid(b: Bar) {
    b.minimum < b.maximum
  }

  /** The position lies in the range. */
  predicate InRange(b: Bar) {
    b.minimum <= b.value <= b.maximum
  }

  /** The constructor: the position starts at the requested minimum, and a
      range that is not strictly increasing is replaced by 0..100 after
      that, so the position can then lie outside the range. */
  function NewBar(minimum: i32, maximum: i32): (r: Bar)
    ensures Valid(r) && !r.widget && r.value == minimum
    ensures minimum < maximum ==> r.minimum == minimum && r.maximum == maximum
    ensures minimum >= maximum ==> r.minimum == 0 && r.maximum == 100
  {
    if minimum >= maximum then Bar(0, 100, minimum, false)
    else Bar(minimum, maximum, minimum, false)
  }

  /** A bar constructed with an empty range above 100 starts outside its
      own range. */
  lemma ConstructedOutsideRange()
    ensures !InRange(NewBar(200, 50))
  {
  }

  /** `v` limited to `[lo, hi]` by the source's two tests, the lower bound
      first; for an empty range the lower bound wins below it. */
  function Clamp(v: int, lo: i32, hi: i32): (r: i32)
    ensures lo <= hi ==> lo <= r <= hi
    ensures lo <= v <= hi ==> r == v
    ensures v < lo ==> r == lo
    ensures lo <= v && v > hi ==> r == hi
    ensures r == v || r == lo || r == hi
  {
    if v < lo then lo else if v > hi then hi else v
  }

  /** `setProgress`: the position, limited to the range. */
  function SetProgress(b: Bar, value: i32): (r: Bar)
    ensures Valid(b) ==> Valid(r) && InRange(r)
    ensures r.minimum == b.minimum && r.maximum == b.maximum && r.widget == b.widget
    ensures b.minimum <= value <= b.maximum ==> r.value == value
    ensures value < b.minimum ==> r.value == b.minimum
    ensures Valid(b) && value > b.maximum ==> r.value == b.maximum
  {
    b.(value := Clamp(value, b.minimum, b.maximum))
  }

  /** Setting a position twice is setting it once, and setting the
      position already held changes nothing when it is in range. */
  lemma SetProgressIdempotent(b: Bar, value: i32)
    requires Valid(b)
    ensures SetProgress(SetProgress(b, value), value) == SetProgress(b, value)
    ensures InRange(b) ==> SetProgress(b, b.value) == b
  {
  }

  /** `getProgress`: the native control's position once it exists
      (`widgetPos`), otherwise the stored one. */
  function GetProgress(b: Bar, widgetPos: i32): (r: i32)
    ensures !b.widget ==> r == b.value
    ensures b.widget ==> r == widgetPos
  {
    if b.widget then widgetPos else b.value
  }

  /** `setRange`: a range that is not strictly increasing is ignored;
      otherwise it replaces the bounds, and only with a native control is
      the position pulled into the new range. */
  function SetRange(b: Bar, minimum: i32, maximum: i32): (r: Bar)
    ensures minimum >= maximum ==> r == b
    ensures minimum < maximum ==> r.minimum == minimum && r.maximum == maximum && r.widget == b.widget
    ensures minimum < maximum && b.widget ==> r.value == Clamp(b.value, minimum, maximum)
    ensures minimum < maximum && !b.widget ==> r.value == b.value
    ensures Valid(b) ==> Valid(r)
  {
    if minimum >= maximum then b
    else if b.widget then Bar(minimum, maximum, Clamp(b.value, minimum, maximum), true)
    else Bar(minimum, maximum, b.value, false)
  }

  /** `getRange`: the stored bounds. */
  function GetRange(b: Bar): (r: (i32, i32))
    ensures Valid(b) ==> r.0 < r.1
    ensures Valid(b) && (b.widget ==> InRange(b)) ==> SetRange(b, r.0, r.1) == b
  {
    (b.minimum, b.maximum)
  }

  /** With a native control, every operation keeps the position in range. */
  lemma WidgetKeepsInRange(b: Bar, minimum: i32, maximum: i32)
    requires Valid(b) && b.widget && InRange(b)
    ensures InRange(SetRange(b, minimum, maximum))
  {
  }

  /** Without a native control, narrowing the range can strand the
      position outside it. */
  lemma NoWidgetCanStrand()
    ensures var b := SetRange(SetProgress(NewBar(0, 100), 90), 0, 50);
      !b.widget && !InRange(b)
  {
  }

  /** `create`: the native control comes into being when the window is
      created (`created`); the stored range and position are sent to it. */
  function Create(b: Bar, created: bool): (r: Bar)
    ensures r == b.(widget := created)
  {
    b.(widget := created)
  }

  /** Once the native control exists, narrowing the range pulls the
      position in, where without it the position would be stranded; a
      failed first creation changes nothing. */
  lemma CreateEnablesReclamp(b: Bar)
    ensures !b.widget ==> Create(b, false) == b
    ensures var c := Create(SetProgress(NewBar(0, 100), 90), true);
      SetRange(c, 0, 50).value == 50 && InRange(SetRange(c, 0, 50))
  {
  }

  /** `step(increment)`.  With a native control the control moves and its
      new position (`widgetPos`) is read back; without one the position
      plus the increment, in 32-bit arithmetic, is set as the progress. */
  function Step(b: Bar, increment: i32, widgetPos: i32): (r: Bar)
    ensures Valid(r) == Valid(b) && r.minimum == b.minimum && r.maximum == b.maximum && r.widget == b.widget
    ensures b.widget ==> r.value == widgetPos
    ensures Valid(b) && !b.widget ==> InRange(r)
  {
    if b.widget then b.(value := widgetPos)
    else SetProgress(b, Wrap32(b.value + increment))
  }

  /** Without a native control and without overflow, a step moves the
      position by the increment and stops at the ends of the range. */
  lemma StepMoves(b: Bar, increment: i32, widgetPos: i32)
    requires Valid(b) && !b.widget
    requires Int32Min <= b.value + increment <= Int32Max
    ensures Step(b, increment, widgetPos).value == Clamp(b.value + increment, b.minimum, b.maximum)
    ensures InRange(b) && increment >= 0 ==> Step(b, increment, widgetPos).value >= b.value
  {
  }

  /** A step whose sum leaves the `int` range wraps around: from the top of
      a range ending at the largest `int`, one step forward lands on the
      bottom of the range. */
  lemma StepOverflowWraps(widgetPos: i32)
    ensures var b := SetProgress(NewBar(0, Int32Max), Int32Max);
      b.value == Int32Max && Step(b, 1, widgetPos).value == 0
  {
  }

  /** The step the overflow evidently does not intend: the sum taken
      without wrap-around, then limited to the range. */
  function StepSaturating(b: Bar, increment: i32, widgetPos: i32): (r: Bar)
    ensures Valid(r) == Valid(b) && r.minimum == b.minimum && r.maximum == b.maximum && r.widget == b.widget
    ensures b.widget ==> r.value == widgetPos
    ensures Valid(b) && !b.widget ==> InRange(r)
    ensures Valid(b) && !b.widget && InRange(b) && increment >= 0 ==> r.value >= b.value
    ensures Valid(b) && !b.widget && InRange(b) && increment <= 0 ==> r.value <= b.value
  {
    if b.widget then b.(value := widgetPos)
    else b.(value := Clamp(b.value + increment, b.minimum, b.maximum))
  }

  /** The two agree whenever the sum fits in an `int`. */
  lemma StepAgreesWithoutOverflow(b: Bar, increment: i32, widgetPos: i32)
    requires Int32Min <= b.value + increment <= Int32Max
    ensures Step(b, increment, widgetPos) == StepSaturating(b, increment, widgetPos)
  {
  }
}
