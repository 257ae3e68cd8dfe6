/**
 * The indicator's configuration values and the validation its property
 * setters apply: the dot-count clamp, the dot-type check and the
 * active-dot normalisation.
 */
module Config {
  import opened Wrappers
  import opened Int32

  /** The sentinel for "no dot is active". */
  const NoActiveDot: Int32 := -1
  /** The smallest dot count the indicator stores. */
  const MinDotCount: Int32 := 1

  /**
   * `Single`: every dot is drawn and the active one is highlighted.
   * `Multiple`: only the first `activeDot` dots are drawn, all highlighted.
   */
  datatype DotType = Single | Multiple

  /** The enum's integer value (Single = 0, Multiple = 1). */
  function Code(t: DotType): (c: Int32)
    ensures c == 0 || c == 1
  {
    match t
    case Single => 0
    case Multiple => 1
  }

  /** The enum member an integer names; an integer that names none gives None. */
  function DotTypeOf(c: Int32): (r: Option<DotType>)
    ensures r.Some? <==> c == 0 || c == 1
    ensures r.Some? ==> Code(r.value) == c
  {
    if c == 0 then Some(Single) else if c == 1 then Some(Multiple) else None
  }

  /** Decoding an encoded dot type gives it back. */
  lemma DotTypeRoundTrip(t: DotType)
    ensures DotTypeOf(Code(t)) == Some(t)
  {
  }

  /** The count the `DotCount` setter stores for a requested `v`: at least MinDotCount. */
  function ClampDotCount(v: Int32): (r: Int32)
    ensures r >= MinDotCount
    ensures v >= MinDotCount ==> r == v
    ensures v < MinDotCount ==> r == MinDotCount
  {
    if v < MinDotCount then MinDotCount else v
  }

  /**
   * The largest non-sentinel active dot: an index of one of the `dotCount`
   * dots in Single mode, a count of leading dots (so one more) in Multiple mode.
   * `dotCount - 1` is C#'s unchecked subtraction.
   */
  function MaxActiveDot(dotCount: Int32, t: DotType): int {
    match t
    case Single => Wrap(dotCount - 1)
    case Multiple => dotCount
  }

  /** An active dot the setter leaves as it is: the sentinel or within 0..MaxActiveDot. */
  predicate ActiveDotInRange(v: int, dotCount: Int32, t: DotType) {
    v == NoActiveDot || 0 <= v <= MaxActiveDot(dotCount, t)
  }

  /**
   * The value the `ActiveDot` setter stores for a requested `v`, given the
   * current dot count and dot type.
   */
  function Normalize(v: Int32, dotCount: Int32, t: DotType): (r: Int32)
    ensures ActiveDotInRange(r, dotCount, t)
    ensures 0 <= v <= MaxActiveDot(dotCount, t) ==> r == v
    ensures !(0 <= v <= MaxActiveDot(dotCount, t)) ==> r == NoActiveDot
  {
    var v := if v < 0 then NoActiveDot else v;
    match t
    case Single => if v > Wrap(dotCount - 1) then NoActiveDot else v
    case Multiple => if v > dotCount then NoActiveDot else v
  }

  /** Normalising twice is normalising once. */
  lemma NormalizeIdempotent(v: Int32, dotCount: Int32, t: DotType)
    ensures Normalize(Normalize(v, dotCount, t), dotCount, t) == Normalize(v, dotCount, t)
  {
  }

  /** Exactly the in-range values are the fixed points of the normalisation. */
  lemma NormalizeFixedPoints(v: Int32, dotCount: Int32, t: DotType)
    ensures Normalize(v, dotCount, t) == v <==> ActiveDotInRange(v, dotCount, t)
  {
  }

  /** Clamping twice is clamping once. */
  lemma ClampIdempotent(v: Int32)
    ensures ClampDotCount(ClampDotCount(v)) == ClampDotCount(v)
  {
  }

  /** The active-dot cases for five dots in each mode. */
  lemma NormalizeExamples()
    ensures Normalize(4, 5, Single) == 4
    ensures Normalize(5, 5, Single) == NoActiveDot
    ensures Normalize(-3, 5, Single) == NoActiveDot
    ensures Normalize(5, 5, Multiple) == 5
    ensures Normalize(6, 5, Multiple) == NoActiveDot
  {
  }

  /** The subtraction wraps like C#'s: with the smallest `int` as count, Single mode keeps 5. */
  lemma NormalizeWrapsCount()
    ensures Normalize(5, MinValue, Single) == 5
  {
  }
}
