/**
 * The size arithmetic of `OnMeasure` and the draw plan of `OnDraw`, as pure
 * functions of the configuration, the drawable's intrinsic size and the
 * view's padding and size. `ResolveSize`, `Gravity.Apply` and the canvas are
 * the host's: the plan stops at the values handed to them.
 */
module Layout {
  import opened Wrappers
  import opened Int32
  import opened Config

  /** A drawable's intrinsic size; -1 in a dimension means it has none. */
  datatype GlyphSize = GlyphSize(width: Int32, height: Int32)

  datatype Padding = Padding(left: Int32, top: Int32, right: Int32, bottom: Int32)

  datatype Size = Size(width: Int32, height: Int32)

  datatype Rect = Rect(left: Int32, top: Int32, right: Int32, bottom: Int32)

  /** One glyph drawn by `OnDraw`: its index, its x offset from the placed block's left edge, and whether it gets the selected state. */
  datatype DotEntry = DotEntry(index: nat, x: int, highlighted: bool)

  /**
   * What one `OnDraw` does: nothing, or draw `dots` in a block of
   * `boxWidth` x `boxHeight` that `Gravity.Apply` places inside `area`
   * according to `gravity`.
   */
  datatype DrawPlan =
    | Nothing
    | Draw(gravity: Int32, boxWidth: Int32, boxHeight: Int32, area: Rect, dots: seq<DotEntry>)

  /** A glyph whose size the `DotDrawable` setter does not accept. */
  predicate Unresolved(g: GlyphSize) {
    g.width == -1 || g.height == -1
  }

  function Max(a: int, b: int): int {
    if a < b then b else a
  }

  /** The exact width of a row of `n` glyphs of width `w` with `s` between neighbours. */
  function RowWidth(n: int, w: int, s: int): int {
    n * (w + s) - s
  }

  /** A row's width reaches exactly the right edge of its last glyph. */
  lemma RowWidthIsLastRightEdge(n: int, w: int, s: int)
    ensures RowWidth(n, w, s) == (n - 1) * (w + s) + w
  {
    calc {
      (n - 1) * (w + s) + w;
      n * (w + s) - (w + s) + w;
    }
  }

  /** With a non-negative pitch, a row of fewer glyphs is never wider. */
  lemma RowWidthMonotonic(m: int, n: int, w: int, s: int)
    requires m <= n && w + s >= 0
    ensures RowWidth(m, w, s) <= RowWidth(n, w, s)
  {
    assert RowWidth(n, w, s) - RowWidth(m, w, s) == (n - m) * (w + s);
  }

  /**
   * `OnMeasure`'s requested size before `ResolveSize`, each unchecked
   * operation wrapped as C# evaluates it.
   */
  function MeasuredSize(dotCount: Int32, spacing: Int32, glyph: Option<GlyphSize>, pad: Padding): Size {
    var width: Int32 := if glyph.Some? then Wrap(Wrap(dotCount * Wrap(glyph.value.width + spacing)) - spacing) else 0;
    var height: Int32 := if glyph.Some? then glyph.value.height else 0;
    Size(Wrap(width + Wrap(pad.right + pad.left)), Wrap(height + Wrap(pad.bottom + pad.top)))
  }

  /** C#'s op-by-op row width `n*(w+s) - s` is the exact row width reduced once. */
  lemma WrappedRowWidth(n: int, w: int, s: int)
    ensures Wrap(Wrap(n * Wrap(w + s)) - s) == Wrap(RowWidth(n, w, s))
  {
    WrapMul(n, w + s);
    WrapAdd(n * (w + s), -s);
  }

  /** Adding an op-by-op sum `p + q` to `a` is reducing `a + p + q` once. */
  lemma WrappedSum(a: int, p: int, q: int)
    ensures Wrap(a + Wrap(p + q)) == Wrap(a + p + q)
  {
    WrapAdd(p + q, a);
  }

  /**
   * The measured size is the row of all `dotCount` glyphs plus the padding
   * (only the padding without a drawable), reduced once to 32 bits.
   */
  lemma MeasuredSizeFormula(dotCount: Int32, spacing: Int32, glyph: Option<GlyphSize>, pad: Padding)
    ensures glyph.Some? ==> (MeasuredSize(dotCount, spacing, glyph, pad) ==
      Size(Wrap(RowWidth(dotCount, glyph.value.width, spacing) + pad.left + pad.right),
           Wrap(glyph.value.height + pad.top + pad.bottom)))
    ensures glyph.None? ==> (MeasuredSize(dotCount, spacing, glyph, pad) ==
      Size(Wrap(pad.left + pad.right), Wrap(pad.top + pad.bottom)))
  {
    if glyph.Some? {
      MeasuredWidthWithGlyph(dotCount, spacing, glyph.value, pad);
    } else {
      MeasuredWidthWithoutGlyph(dotCount, spacing, pad);
    }
    MeasuredHeight(dotCount, spacing, glyph, pad);
  }

  /** The width half of `MeasuredSizeFormula` without a drawable. */
  lemma MeasuredWidthWithoutGlyph(dotCount: Int32, spacing: Int32, pad: Padding)
    ensures MeasuredSize(dotCount, spacing, None, pad).width == Wrap(pad.left + pad.right)
  {
    WrappedSum(0, pad.right, pad.left);
  }

  /** The height half of `MeasuredSizeFormula`. */
  lemma MeasuredHeight(dotCount: Int32, spacing: Int32, glyph: Option<GlyphSize>, pad: Padding)
    ensures MeasuredSize(dotCount, spacing, glyph, pad).height ==
      Wrap((if glyph.Some? then glyph.value.height else 0) + pad.top + pad.bottom)
  {
    WrappedSum(if glyph.Some? then glyph.value.height else 0, pad.bottom, pad.top);
  }

  /** The width half of `MeasuredSizeFormula` with a drawable. */
  lemma MeasuredWidthWithGlyph(dotCount: Int32, spacing: Int32, g: GlyphSize, pad: Padding)
    ensures MeasuredSize(dotCount, spacing, Some(g), pad).width ==
      Wrap(RowWidth(dotCount, g.width, spacing) + pad.left + pad.right)
  {
    var row := MeasuredWidthSteps(dotCount, spacing, g, pad);
    WrappedRowWidth(dotCount, g.width, spacing);
    PaddedRow(row, RowWidth(dotCount, g.width, spacing), pad.right, pad.left);
  }

  /** The two steps of `OnMeasure`'s width with a drawable: the wrapped row, then the padding added. */
  lemma MeasuredWidthSteps(dotCount: Int32, spacing: Int32, g: GlyphSize, pad: Padding) returns (row: Int32)
    ensures row == Wrap(Wrap(dotCount * Wrap(g.width + spacing)) - spacing)
    ensures MeasuredSize(dotCount, spacing, Some(g), pad).width == Wrap(row + Wrap(pad.right + pad.left))
  {
    row := Wrap(Wrap(dotCount * Wrap(g.width + spacing)) - spacing);
  }

  /** Adding the op-by-op padding sum to a reduced row is reducing the exact padded row once. */
  lemma PaddedRow(row: int, exact: int, p: int, q: int)
    requires row == Wrap(exact)
    ensures Wrap(row + Wrap(p + q)) == Wrap(exact + q + p)
  {
    WrappedSum(row, p, q);
    WrapAdd(exact, p + q);
  }

  /** When the exact sums fit in 32 bits the measured size is exactly the formula. */
  lemma MeasuredSizeExact(dotCount: Int32, spacing: Int32, g: GlyphSize, pad: Padding)
    requires MinValue <= RowWidth(dotCount, g.width, spacing) + pad.left + pad.right <= MaxValue
    requires MinValue <= g.height + pad.top + pad.bottom <= MaxValue
    ensures MeasuredSize(dotCount, spacing, Some(g), pad) ==
      Size(dotCount * (g.width + spacing) - spacing + pad.left + pad.right, g.height + pad.top + pad.bottom)
  {
    MeasuredSizeFormula(dotCount, spacing, Some(g), pad);
  }

  /** How many glyphs `OnDraw` draws: all of them in Single mode, `activeDot` of them in Multiple mode. */
  function DrawCount(dotCount: Int32, activeDot: Int32, t: DotType): Int32 {
    match t
    case Single => dotCount
    case Multiple => activeDot
  }

  /** Whether glyph `i` gets the selected state. */
  predicate Highlighted(i: int, activeDot: Int32, t: DotType) {
    t == Multiple || i == activeDot
  }

  /** The glyphs `0..count-1`, left to right, `step` apart. */
  function Dots(count: nat, step: int, activeDot: Int32, t: DotType): (r: seq<DotEntry>)
    ensures |r| == count
    decreases count
  {
    if count == 0 then []
    else Dots(count - 1, step, activeDot, t) + [DotEntry(count - 1, (count - 1) * step, Highlighted(count - 1, activeDot, t))]
  }

  /** Entry i of the row is glyph i, at offset `i*step`, highlighted as the mode says. */
  lemma {:induction false} DotsAt(count: nat, step: int, activeDot: Int32, t: DotType, i: nat)
    requires i < count
    ensures Dots(count, step, activeDot, t)[i] == DotEntry(i, i * step, Highlighted(i, activeDot, t))
  {
    if i < count - 1 {
      DotsAt(count - 1, step, activeDot, t, i);
    }
  }

  /** What `OnDraw` draws for the given configuration, drawable, view size and padding. */
  function Plan(glyph: Option<GlyphSize>, dotCount: Int32, activeDot: Int32, t: DotType, spacing: Int32,
                gravity: Int32, viewWidth: Int32, viewHeight: Int32, pad: Padding): (r: DrawPlan)
    ensures r.Nothing? <==> glyph.None? || DrawCount(dotCount, activeDot, t) <= 0
    ensures r.Draw? ==> |r.dots| == DrawCount(dotCount, activeDot, t) && r.boxHeight == glyph.value.height
  {
    if glyph.None? then Nothing
    else
      var count := DrawCount(dotCount, activeDot, t);
      if count <= 0 then Nothing
      else
        var g := glyph.value;
        var w := Max(0, Wrap(Wrap(count * Wrap(g.width + spacing)) - spacing));
        Draw(gravity, w, g.height,
             Rect(pad.left, pad.top, Wrap(viewWidth - pad.right), Wrap(viewHeight - pad.bottom)),
             Dots(count, Wrap(spacing + g.width), activeDot, t))
  }

  /** The drawn block is as wide as the row of the drawn glyphs, floored at 0. */
  lemma PlanBoxWidth(glyph: Option<GlyphSize>, dotCount: Int32, activeDot: Int32, t: DotType, spacing: Int32,
                     gravity: Int32, viewWidth: Int32, viewHeight: Int32, pad: Padding)
    requires glyph.Some?
    ensures var r := Plan(glyph, dotCount, activeDot, t, spacing, gravity, viewWidth, viewHeight, pad);
      r.Draw? ==> r.boxWidth == Max(0, Wrap(RowWidth(DrawCount(dotCount, activeDot, t), glyph.value.width, spacing)))
  {
    WrappedRowWidth(DrawCount(dotCount, activeDot, t), glyph.value.width, spacing);
  }

  /** Number of entries that get the selected state. */
  function HighlightedCount(dots: seq<DotEntry>): nat {
    if dots == [] then 0
    else HighlightedCount(dots[..|dots| - 1]) + (if dots[|dots| - 1].highlighted then 1 else 0)
  }

  /** Appending an entry adds one to the count exactly when the entry is highlighted. */
  lemma HighlightedCountAppend(prefix: seq<DotEntry>, last: DotEntry)
    ensures HighlightedCount(prefix + [last]) == HighlightedCount(prefix) + (if last.highlighted then 1 else 0)
  {
    assert (prefix + [last])[..|prefix|] == prefix;
  }

  /** The highlighted count of `count` glyphs, from that of the first `count - 1`. */
  lemma DotsHighlightedCount(count: nat, step: int, activeDot: Int32, t: DotType)
    requires count > 0
    ensures HighlightedCount(Dots(count, step, activeDot, t)) ==
      HighlightedCount(Dots(count - 1, step, activeDot, t)) + (if Highlighted(count - 1, activeDot, t) then 1 else 0)
  {
    HighlightedCountAppend(Dots(count - 1, step, activeDot, t),
                           DotEntry(count - 1, (count - 1) * step, Highlighted(count - 1, activeDot, t)));
  }

  /** In Single mode exactly one glyph is highlighted when `activeDot` indexes a drawn glyph, and none otherwise. */
  lemma {:induction false} SingleModeHighlightsAtMostOne(count: nat, step: int, activeDot: Int32)
    ensures HighlightedCount(Dots(count, step, activeDot, Single)) == if 0 <= activeDot < count then 1 else 0
  {
    if count > 0 {
      DotsHighlightedCount(count, step, activeDot, Single);
      SingleModeHighlightsAtMostOne(count - 1, step, activeDot);
    }
  }

  /** In Multiple mode every drawn glyph is highlighted. */
  lemma {:induction false} MultipleModeHighlightsAll(count: nat, step: int, activeDot: Int32)
    ensures HighlightedCount(Dots(count, step, activeDot, Multiple)) == count
  {
    if count > 0 {
      DotsHighlightedCount(count, step, activeDot, Multiple);
      MultipleModeHighlightsAll(count - 1, step, activeDot);
    }
  }

  /**
   * Without overflow, the last glyph's right edge is the right edge of the
   * drawn block: the glyphs fill the block that `Gravity.Apply` places.
   */
  lemma LastDotEndsBlock(glyph: Option<GlyphSize>, dotCount: Int32, activeDot: Int32, t: DotType, spacing: Int32,
                         gravity: Int32, viewWidth: Int32, viewHeight: Int32, pad: Padding)
    requires glyph.Some?
    requires MinValue <= glyph.value.width + spacing <= MaxValue
    requires 0 <= RowWidth(DrawCount(dotCount, activeDot, t), glyph.value.width, spacing) <= MaxValue
    ensures var r := Plan(glyph, dotCount, activeDot, t, spacing, gravity, viewWidth, viewHeight, pad);
      r.Draw? ==> r.dots[|r.dots| - 1].x + glyph.value.width == r.boxWidth
  {
    var r := Plan(glyph, dotCount, activeDot, t, spacing, gravity, viewWidth, viewHeight, pad);
    if r.Draw? {
      var count := DrawCount(dotCount, activeDot, t);
      PlanBoxWidth(glyph, dotCount, activeDot, t, spacing, gravity, viewWidth, viewHeight, pad);
      RowWidthIsLastRightEdge(count, glyph.value.width, spacing);
      DotsAt(count, Wrap(spacing + glyph.value.width), activeDot, t, count - 1);
    }
  }

  /** In Single mode the drawn block is as wide as the content `OnMeasure` reserves (when that is not negative). */
  lemma SingleModeDrawsMeasuredRow(g: GlyphSize, dotCount: Int32, activeDot: Int32, spacing: Int32,
                                   gravity: Int32, viewWidth: Int32, viewHeight: Int32, pad: Padding)
    requires dotCount >= MinDotCount
    requires Wrap(RowWidth(dotCount, g.width, spacing)) >= 0
    ensures Plan(Some(g), dotCount, activeDot, Single, spacing, gravity, viewWidth, viewHeight, pad).boxWidth
         == MeasuredSize(dotCount, spacing, Some(g), Padding(0, 0, 0, 0)).width
  {
    PlanBoxWidth(Some(g), dotCount, activeDot, Single, spacing, gravity, viewWidth, viewHeight, pad);
    MeasuredSizeFormula(dotCount, spacing, Some(g), Padding(0, 0, 0, 0));
  }

  /**
   * In Multiple mode, with an in-range active dot, a non-negative pitch and
   * no overflow, the drawn block never exceeds the width `OnMeasure`
   * reserves for all `dotCount` glyphs: the view does not need to grow as
   * glyphs turn on.
   */
  lemma MultipleModeFitsMeasuredRow(g: GlyphSize, dotCount: Int32, activeDot: Int32, spacing: Int32,
                                    gravity: Int32, viewWidth: Int32, viewHeight: Int32, pad: Padding)
    requires 0 < activeDot <= dotCount
    requires g.width + spacing >= 0
    requires RowWidth(dotCount, g.width, spacing) <= MaxValue
    requires MinValue <= RowWidth(activeDot, g.width, spacing)
    ensures Plan(Some(g), dotCount, activeDot, Multiple, spacing, gravity, viewWidth, viewHeight, pad).boxWidth
         <= Max(0, MeasuredSize(dotCount, spacing, Some(g), Padding(0, 0, 0, 0)).width)
  {
    PlanBoxWidth(Some(g), dotCount, activeDot, Multiple, spacing, gravity, viewWidth, viewHeight, pad);
    MeasuredSizeFormula(dotCount, spacing, Some(g), Padding(0, 0, 0, 0));
    RowWidthMonotonic(activeDot, dotCount, g.width, spacing);
  }

  /** Three 10-wide glyphs 2 apart, with no padding, are 34 wide. */
  lemma MeasureExample()
    ensures MeasuredSize(3, 2, Some(GlyphSize(10, 10)), Padding(0, 0, 0, 0)) == Size(34, 10)
  {
  }

  /**
   * A drawable without intrinsic size (-1 x -1) still enters the arithmetic:
   * three such glyphs with no spacing measure -3 x -1.
   */
  lemma UnresolvedGlyphExample()
    ensures MeasuredSize(3, 0, Some(GlyphSize(-1, -1)), Padding(0, 0, 0, 0)) == Size(-3, -1)
  {
  }

  /** Multiple mode, five dots, three active: three highlighted glyphs 12 apart, in a 34-wide block. */
  lemma MultipleModePlanExample()
    ensures var r := Plan(Some(GlyphSize(10, 10)), 5, 3, Multiple, 2, 0x11, 100, 20, Padding(0, 0, 0, 0));
      r.Draw? && r.boxWidth == 34 && r.area == Rect(0, 0, 100, 20) &&
      r.dots == [DotEntry(0, 0, true), DotEntry(1, 12, true), DotEntry(2, 24, true)]
  {
    var r := Plan(Some(GlyphSize(10, 10)), 5, 3, Multiple, 2, 0x11, 100, 20, Padding(0, 0, 0, 0));
    assert r.dots == Dots(3, 12, 3, Multiple);
  }

  /** Single mode, five dots, dot 2 active: five glyphs and only the third highlighted. */
  lemma SingleModePlanExample()
    ensures var r := Plan(Some(GlyphSize(10, 10)), 5, 2, Single, 2, 0x11, 100, 20, Padding(0, 0, 0, 0));
      r.Draw? && r.boxWidth == 58 &&
      r.dots == [DotEntry(0, 0, false), DotEntry(1, 12, false), DotEntry(2, 24, true),
                 DotEntry(3, 36, false), DotEntry(4, 48, false)]
  {
    var r := Plan(Some(GlyphSize(10, 10)), 5, 2, Single, 2, 0x11, 100, 20, Padding(0, 0, 0, 0));
    assert r.dots == Dots(5, 12, 2, Single);
  }

  /** Multiple mode with no active dot draws nothing, while the measurement still covers all dots. */
  lemma NoActiveDotDrawsNothing()
    ensures Plan(Some(GlyphSize(10, 10)), 5, NoActiveDot, Multiple, 2, 0x11, 100, 20, Padding(0, 0, 0, 0)) == Nothing
    ensures MeasuredSize(5, 2, Some(GlyphSize(10, 10)), Padding(0, 0, 0, 0)).width == 58
  {
  }
}
