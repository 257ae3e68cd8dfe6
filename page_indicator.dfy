/**
 * The page-dot indicator view: its settings, the property setters that
 * validate them and ask the host to re-measure (`RequestLayout`) or redraw
 * (`Invalidate`), the construction sequence, the measure and draw passes
 * and the saved instance state.
 */
module Widget {
  import opened Wrappers
  import opened Int32
  import opened Config
  import opened Layout

  /** Android's `GravityFlags.Center` (centre horizontally and vertically). */
  const GravityCenter: Int32 := 0x11

  /** The indicator's settings as one value. */
  datatype Settings = Settings(dotCount: Int32, activeDot: Int32, dotType: DotType,
                               dotSpacing: Int32, gravity: Int32, dotDrawable: Option<GlyphSize>)

  /**
   * What the styled attributes give the constructor: `None` where an
   * attribute is absent (the setter then receives the setting's current
   * value); `dotType` is the raw enum integer.
   */
  datatype Attributes = Attributes(dotCount: Option<Int32>, activeDot: Option<Int32>, dotDrawable: Option<GlyphSize>,
                                   dotSpacing: Option<Int32>, gravity: Option<Int32>, dotType: Option<Int32>)

  class PageIndicator {
    var dotCount: Int32
    var activeDot: Int32
    var dotType: DotType
    var dotSpacing: Int32
    var gravity: Int32
    var dotDrawable: Option<GlyphSize>
    /** True only while the constructor applies the styled attributes. */
    var initializing: bool
    /** How often a layout request reached the base view. */
    var layoutRequests: nat
    /** How often an invalidation reached the base view. */
    var invalidations: nat

    /**
     * The one invariant of a constructed indicator: at least one dot. The
     * constructor establishes it, `SetDotCount` re-establishes it, and every
     * other setter leaves `dotCount` as it is. In Single mode it means a
     * drawable is always drawn (`OnDraw`).
     */
    ghost predicate Valid()
      reads this
    {
      dotCount >= MinDotCount
    }

    ghost function Current(): Settings
      reads this
    {
      Settings(dotCount, activeDot, dotType, dotSpacing, gravity, dotDrawable)
    }

    /** How many base-view calls one `RequestLayout` or `Invalidate` makes now. */
    function Reach(): nat
      reads this
    {
      if initializing then 0 else 1
    }

    /**
     * Field defaults, `InitPageIndicator`, then the attributes applied through
     * the setters with `initializing` set. `InitPageIndicator` runs before
     * `initializing` is set, so its `DotCount = 1` does reach the base view once.
     */
    constructor (attrs: Attributes)
      ensures Current() == Settings(
        ClampDotCount(attrs.dotCount.GetOr(MinDotCount)),
        Normalize(attrs.activeDot.GetOr(0), ClampDotCount(attrs.dotCount.GetOr(MinDotCount)), Single),
        DotTypeOf(attrs.dotType.GetOr(Code(Single))).GetOr(Single),
        attrs.dotSpacing.GetOr(0),
        attrs.gravity.GetOr(GravityCenter),
        attrs.dotDrawable)
      ensures Valid() && !initializing && layoutRequests == 1 && invalidations == 1
    {
      dotCount, activeDot, dotType, dotSpacing, gravity := 0, 0, Single, 0, 0;
      dotDrawable := None;
      initializing := false;
      layoutRequests, invalidations := 0, 0;
      new;
      InitPageIndicator();
      initializing := true;
      SetDotCount(attrs.dotCount.GetOr(dotCount));
      SetActiveDot(attrs.activeDot.GetOr(activeDot));
      SetDotDrawable(attrs.dotDrawable);
      SetDotSpacing(attrs.dotSpacing.GetOr(dotSpacing));
      SetGravity(attrs.gravity.GetOr(gravity));
      SetDotType(attrs.dotType.GetOr(Code(dotType)));
      initializing := false;
    }

    /** The defaults: one dot, dot 0 active, no spacing, Single mode, centred. */
    method InitPageIndicator()
      modifies this
      ensures Current() == old(Current()).(dotCount := ClampDotCount(MinDotCount), gravity := GravityCenter,
                                           activeDot := 0, dotSpacing := 0, dotType := Single)
      ensures initializing == old(initializing)
      ensures var fired := if old(dotCount) != MinDotCount then old(Reach()) else 0;
        layoutRequests == old(layoutRequests) + fired && invalidations == old(invalidations) + fired
    {
      SetDotCount(MinDotCount);
      gravity := GravityCenter;
      activeDot := 0;
      dotSpacing := 0;
      dotType := Single;
    }

    /** A layout request, dropped while initialising. */
    method RequestLayout()
      modifies this
      ensures Current() == old(Current()) && initializing == old(initializing)
      ensures layoutRequests == old(layoutRequests) + old(Reach()) && invalidations == old(invalidations)
    {
      if !initializing {
        layoutRequests := layoutRequests + 1;
      }
    }

    /** A redraw request, dropped while initialising. */
    method Invalidate()
      modifies this
      ensures Current() == old(Current()) && initializing == old(initializing)
      ensures invalidations == old(invalidations) + old(Reach()) && layoutRequests == old(layoutRequests)
    {
      if !initializing {
        invalidations := invalidations + 1;
      }
    }

    /** Stores the count clamped to at least one; re-measures and redraws only when the stored count changes. */
    method SetDotCount(v: Int32)
      modifies this
      ensures Current() == old(Current()).(dotCount := ClampDotCount(v)) && Valid()
      ensures initializing == old(initializing)
      ensures var fired := if old(dotCount) != ClampDotCount(v) then old(Reach()) else 0;
        layoutRequests == old(layoutRequests) + fired && invalidations == old(invalidations) + fired
    {
      var value := v;
      if value < MinDotCount {
        value := MinDotCount;
      }
      if dotCount != value {
        dotCount := value;
        RequestLayout();
        Invalidate();
      }
    }

    /** Stores the normalised active dot and always redraws; never re-measures. */
    method SetActiveDot(v: Int32)
      modifies this
      ensures Current() == old(Current()).(activeDot := Normalize(v, old(dotCount), old(dotType)))
      ensures initializing == old(initializing)
      ensures layoutRequests == old(layoutRequests) && invalidations == old(invalidations) + old(Reach())
    {
      var value := v;
      if value < 0 {
        value := NoActiveDot;
      }
      match dotType {
        case Single =>
          if value > Wrap(dotCount - 1) {
            value := NoActiveDot;
          }
        case Multiple =>
          if value > dotCount {
            value := NoActiveDot;
          }
      }
      activeDot := value;
      Invalidate();
    }

    /**
     * Stores the drawable (`None` for null). A drawable without an intrinsic
     * width or height is stored silently; otherwise the view re-measures and
     * redraws, even when the same drawable is set again.
     */
    method SetDotDrawable(d: Option<GlyphSize>)
      modifies this
      ensures Current() == old(Current()).(dotDrawable := d)
      ensures initializing == old(initializing)
      ensures var fired := if d.Some? && Unresolved(d.value) then 0 else old(Reach());
        layoutRequests == old(layoutRequests) + fired && invalidations == old(invalidations) + fired
    {
      dotDrawable := d;
      if d.Some? && Unresolved(d.value) {
        return;
      }
      RequestLayout();
      Invalidate();
    }

    /** Stores the spacing; re-measures and redraws only when it changes. */
    method SetDotSpacing(v: Int32)
      modifies this
      ensures Current() == old(Current()).(dotSpacing := v)
      ensures initializing == old(initializing)
      ensures var fired := if old(dotSpacing) != v then old(Reach()) else 0;
        layoutRequests == old(layoutRequests) + fired && invalidations == old(invalidations) + fired
    {
      if v != dotSpacing {
        dotSpacing := v;
        RequestLayout();
        Invalidate();
      }
    }

    /** Stores the gravity flags; redraws only when they change and never re-measures. */
    method SetGravity(v: Int32)
      modifies this
      ensures Current() == old(Current()).(gravity := v)
      ensures initializing == old(initializing)
      ensures layoutRequests == old(layoutRequests)
      ensures invalidations == old(invalidations) + if old(gravity) != v then old(Reach()) else 0
    {
      if gravity != v {
        gravity := v;
        Invalidate();
      }
    }

    /**
     * Accepts only the integers of `Single` and `Multiple`; anything else
     * changes nothing. A change redraws and never re-measures.
     */
    method SetDotType(code: Int32)
      modifies this
      ensures DotTypeOf(code).None? ==> Current() == old(Current())
      ensures DotTypeOf(code).Some? ==> Current() == old(Current()).(dotType := DotTypeOf(code).value)
      ensures initializing == old(initializing)
      ensures layoutRequests == old(layoutRequests)
      ensures invalidations == old(invalidations) +
        if DotTypeOf(code).Some? && DotTypeOf(code).value != old(dotType) then old(Reach()) else 0
    {
      if code == Code(Single) || code == Code(Multiple) {
        var value := if code == Code(Single) then Single else Multiple;
        if dotType != value {
          dotType := value;
          Invalidate();
        }
      }
    }

    /** The size `OnMeasure` hands to `ResolveSize`, from the current settings. */
    method OnMeasure(pad: Padding) returns (size: Size)
      ensures size == MeasuredSize(dotCount, dotSpacing, dotDrawable, pad)
      ensures dotDrawable.Some? ==> (size ==
        Size(Wrap(RowWidth(dotCount, dotDrawable.value.width, dotSpacing) + pad.left + pad.right),
             Wrap(dotDrawable.value.height + pad.top + pad.bottom)))
      ensures dotDrawable.None? ==> size == Size(Wrap(pad.left + pad.right), Wrap(pad.top + pad.bottom))
    {
      size := MeasuredSize(dotCount, dotSpacing, dotDrawable, pad);
      MeasuredSizeFormula(dotCount, dotSpacing, dotDrawable, pad);
    }

    /**
     * One draw pass: the glyphs are emitted left to right while the canvas
     * translation `x` advances by spacing plus glyph width after each one.
     */
    method OnDraw(viewWidth: Int32, viewHeight: Int32, pad: Padding) returns (plan: DrawPlan)
      ensures plan == Plan(dotDrawable, dotCount, activeDot, dotType, dotSpacing, gravity, viewWidth, viewHeight, pad)
      ensures Valid() && dotType == Single && dotDrawable.Some? ==> plan.Draw? && |plan.dots| == dotCount
    {
      if dotDrawable.None? {
        return Nothing;
      }
      var d := dotDrawable.value;
      var count := if dotType == Single then dotCount else activeDot;
      if count <= 0 {
        return Nothing;
      }
      var h := d.height;
      var w := Max(0, Wrap(Wrap(count * Wrap(d.width + dotSpacing)) - dotSpacing));
      var area := Rect(pad.left, pad.top, Wrap(viewWidth - pad.right), Wrap(viewHeight - pad.bottom));
      var step := Wrap(dotSpacing + d.width);
      var dots: seq<DotEntry> := [];
      var x: int := 0;
      var i: nat := 0;
      while i < count
        invariant 0 <= i <= count
        invariant x == i * step
        invariant dots == Dots(i, step, activeDot, dotType)
      {
        var highlighted := dotType == Multiple || i == activeDot;
        dots := dots + [DotEntry(i, x, highlighted)];
        assert (i + 1) * step == x + step;
        x := x + step;
        i := i + 1;
      }
      plan := Draw(gravity, w, h, area, dots);
    }

    /** The state saved across the host's lifecycle: the active dot only. */
    method OnSaveInstanceState() returns (saved: Int32)
      ensures saved == activeDot
    {
      saved := activeDot;
    }

    /** Restores the saved active dot as it is, without normalising it and without any signal. */
    method OnRestoreInstanceState(saved: Int32)
      modifies this
      ensures Current() == old(Current()).(activeDot := saved)
      ensures initializing == old(initializing)
      ensures layoutRequests == old(layoutRequests) && invalidations == old(invalidations)
    {
      activeDot := saved;
    }
  }

  /**
   * A client of the class: construction from attributes, the setters
   * afterwards, and the states the setters and the restore let through.
   */
  method Scenario() {
    var p := new PageIndicator(Attributes(Some(5), Some(5), Some(GlyphSize(10, 10)), Some(2), None, Some(1)));
    // The active dot attribute is normalised while the type is still Single.
    assert p.dotType == Multiple && p.activeDot == NoActiveDot && p.dotCount == 5;
    // Only InitPageIndicator's own DotCount = 1 reached the base view.
    assert p.layoutRequests == 1 && p.invalidations == 1;

    p.SetActiveDot(5);
    assert p.activeDot == 5 && p.layoutRequests == 1 && p.invalidations == 2;
    p.SetDotType(7);
    assert p.dotType == Multiple && p.invalidations == 2;
    p.SetDotCount(5);
    assert p.layoutRequests == 1 && p.invalidations == 2;

    // Shrinking the count keeps the stale active dot, so more glyphs are drawn than measured.
    p.SetDotCount(3);
    assert p.activeDot == 5 && !ActiveDotInRange(p.activeDot, p.dotCount, p.dotType);
    var plan := p.OnDraw(100, 20, Padding(0, 0, 0, 0));
    assert |plan.dots| == 5;

    var saved := p.OnSaveInstanceState();
    p.SetActiveDot(1);
    p.OnRestoreInstanceState(saved);
    assert p.activeDot == 5;
  }
}
