# PageIndicator — a Dafny model

A model of the layout and state engine of `PageIndicator`, an Android view
(written in C# for Xamarin) that draws a row of page dots with one reusable
drawable. The indicator has two modes:

- **Single**: all `dotCount` dots are drawn, and the dot at index `activeDot` is highlighted.
- **Multiple**: only the first `activeDot` dots are drawn, and all of them are highlighted.

The model covers these parts:

- the property setters, with their validation and their `RequestLayout` and `Invalidate` signals;
- the guard that drops those signals while the constructor applies the styled attributes;
- the size arithmetic of `OnMeasure`;
- the draw pass of `OnDraw`: how many glyphs it draws, the block it asks `Gravity.Apply` to place, and each glyph's offset and highlight;
- saving and restoring the active dot.

Files and modules:

- `wrappers.dfy` (`Wrappers`): `Option`. It stands for a nullable drawable and for an absent styled attribute.
- `int32.dfy` (`Int32`): C#'s `int` and its unchecked wrap-around. `Wrap` is the value an overflowing `+`, `-` or `*` yields. `WrapAdd` and `WrapMul` show that wrapping an operand of `+` or `*` first gives the same wrapped result, so C#'s step-by-step evaluation equals wrapping the exact result once.
- `config.dfy` (`Config`): the dot type and its integer codes, the dot-count clamp and the active-dot normalisation.
- `layout.dfy` (`Layout`): pure functions for `OnMeasure` (`MeasuredSize`) and `OnDraw` (`Plan`, `Dots`), with their lemmas.
- `page_indicator.dfy` (`Widget`): the class `PageIndicator`. Its fields are the settings plus `initializing`. Two counters, `layoutRequests` and `invalidations`, count the calls that reach the base view. `OnDraw` builds the glyph sequence with a loop and is proved equal to `Layout.Plan`. `Scenario` is a client method that walks through construction, several setters and a save/restore.

The host's inputs are parameters:

- the drawable's intrinsic size (`Option<GlyphSize>`, where -1 means no intrinsic size);
- the padding;
- the view's width and height;
- the values of the styled attributes.

Behaviour of the code that a reader might not expect, which the model keeps:

- `InitPageIndicator` runs before `_initializing` is set (`PageIndicator.cs:52-53`). So its `DotCount = 1` sends one layout request and one invalidation to the base view during construction. Only the attribute setters that follow are silenced. The constructor's contract states this.
- A drawable without an intrinsic width or height is still stored. The setter then returns before it binds the drawable (`SetBounds`, `SetCallback`, `SetState`, `PageIndicator.cs:151-156`) and before its signals. The model keeps the skipped signals; the binding calls are listed under "Left out". `OnMeasure` and `OnDraw` then compute with -1 as the glyph width and height, not with zero (`UnresolvedGlyphExample`).
- Spacing is not clamped to non-negative values. The setter stores any `int`.
- The constructor normalises the `activeDot` attribute while the type is still `Single`, because the `dotType` attribute is applied last. So a Multiple-mode indicator built with `activeDot == dotCount` gets the sentinel.
- Neither `DotCount` nor `DotType` re-normalises the active dot. A later smaller count can leave it out of range, and so can a restore (`Scenario`).

## Model

| member | source | states |
|---|---|---|
| `Int32.Wrap` | PageIndicator.cs:244-249 | the result is a 32-bit value, and equal to the exact value whenever that fits |
| `Layout.WrappedRowWidth` | PageIndicator.cs:244 | C#'s step-by-step unchecked `n*(w+s) - s` equals the exact row width reduced once to 32 bits |
| `Layout.WrappedSum` | PageIndicator.cs:248-249 | adding the unchecked padding sum equals reducing the whole exact sum once |
| `Config.Code` | PageIndicator.cs:18-22 | every dot type's integer value is 0 or 1 |
| `Config.DotTypeOf` | PageIndicator.cs:195 | an integer names a dot type exactly when it is 0 or 1, and then it names the type with that code |
| `Config.DotTypeRoundTrip` | PageIndicator.cs:18-22 | decoding a dot type's code gives the same dot type |
| `Config.ClampDotCount` | PageIndicator.cs:88-89 | the stored count is at least 1, equal to the request when the request is at least 1, and 1 otherwise |
| `Config.ClampIdempotent` | PageIndicator.cs:88-89 | clamping a clamped count changes nothing |
| `Config.MaxActiveDot` | PageIndicator.cs:109-123 | the largest active dot that is kept: C#'s unchecked `dotCount - 1` in Single mode (:112) and `dotCount` in Multiple mode (:119); a definition without a contract of its own, whose meaning `Normalize` states |
| `Config.Normalize` | PageIndicator.cs:104-124 | the result is the sentinel or in range (0..dotCount-1 in Single mode, 0..dotCount in Multiple mode); an in-range request is kept; any other request becomes the sentinel -1 |
| `Config.NormalizeIdempotent` | PageIndicator.cs:104-125 | normalising twice gives the same value as normalising once |
| `Config.NormalizeFixedPoints` | PageIndicator.cs:104-125 | normalisation leaves a value unchanged exactly when the value is the sentinel or in range |
| `Config.NormalizeExamples` | PageIndicator.cs:104-124 | with five dots in Single mode: 4 is kept and 5 and -3 become -1; in Multiple mode: 5 is kept and 6 becomes -1 |
| `Config.NormalizeWrapsCount` | PageIndicator.cs:112 | `dotCount - 1` wraps as in C#: with the smallest `int` as count, Single mode keeps 5 |
| `Layout.RowWidthIsLastRightEdge` | PageIndicator.cs:264-290 | the row width `n*(w+s)-s` is the right edge of the n-th glyph when each glyph advances by `w+s` |
| `Layout.RowWidthMonotonic` | PageIndicator.cs:244-264 | with a non-negative pitch, a row of fewer glyphs is never wider |
| `Layout.Unresolved` | PageIndicator.cs:147 | the setter's size check: a drawable whose intrinsic width or height is -1; a definition without a contract of its own, used by `SetDotDrawable` |
| `Layout.MeasuredSize` | PageIndicator.cs:240-249 | `OnMeasure`'s arithmetic, each unchecked operation wrapped in turn; it has no contract of its own, and `MeasuredSizeFormula` and `MeasuredSizeExact` give its meaning |
| `Layout.MeasuredSizeFormula` | PageIndicator.cs:238-249 | with a drawable, the measured size is `dotCount*(w+s) - s` plus the left and right padding by `h` plus the top and bottom padding, reduced to 32 bits; without a drawable, it is the padding alone |
| `Layout.MeasuredSizeExact` | PageIndicator.cs:238-249 | when the exact sums fit in 32 bits, the measured size is exactly that formula |
| `Layout.DrawCount` | PageIndicator.cs:259 | the number of glyphs drawn: `dotCount` in Single mode, `activeDot` in Multiple mode; a definition without a contract of its own, used by `Plan` and the lemmas about it |
| `Layout.Highlighted` | PageIndicator.cs:281 | the highlight test: the mode is Multiple or the index is `activeDot`; a definition without a contract of its own, used by `Dots` and `DotsAt` |
| `Layout.Dots` | PageIndicator.cs:276 | one entry per loop iteration: exactly `count` entries |
| `Layout.DotsAt` | PageIndicator.cs:276-290 | entry i has index i and x offset `i*step`, and is highlighted exactly when the mode is Multiple or `i == activeDot` |
| `Layout.Plan` | PageIndicator.cs:256-264 | nothing is drawn exactly when there is no drawable or the mode's count (dotCount in Single mode, activeDot in Multiple mode) is at most 0; otherwise that many entries are drawn in a block as high as the glyph |
| `Layout.PlanBoxWidth` | PageIndicator.cs:259-264 | the block handed to `Gravity.Apply` is `max(0, count*(w+s) - s)` wide, after reduction to 32 bits |
| `Layout.SingleModeHighlightsAtMostOne` | PageIndicator.cs:276-284 | in Single mode one entry is highlighted when `0 <= activeDot < count`, and none otherwise |
| `Layout.MultipleModeHighlightsAll` | PageIndicator.cs:276-284 | in Multiple mode every drawn entry is highlighted |
| `Layout.LastDotEndsBlock` | PageIndicator.cs:264-290 | without overflow, the last glyph's right edge is the right edge of the drawn block |
| `Layout.SingleModeDrawsMeasuredRow` | PageIndicator.cs:240-264 | in Single mode the drawn block is exactly as wide as the content width that `OnMeasure` reserves, when that width is not negative |
| `Layout.MultipleModeFitsMeasuredRow` | PageIndicator.cs:240-264 | in Multiple mode, with an in-range active dot, a non-negative pitch and no overflow, the drawn block never exceeds the width measured for all dots |
| `Layout.MeasureExample` | PageIndicator.cs:240-249 | three 10x10 glyphs 2 apart, with no padding, measure 34 x 10 |
| `Layout.UnresolvedGlyphExample` | PageIndicator.cs:240-249 | a -1 x -1 drawable still enters the arithmetic: three such glyphs measure -3 x -1 |
| `Layout.MultipleModePlanExample` | PageIndicator.cs:259-290 | in Multiple mode with five dots and active dot 3: three highlighted entries at 0, 12 and 24, in a block 34 wide |
| `Layout.SingleModePlanExample` | PageIndicator.cs:259-290 | in Single mode with five dots and active dot 2: five entries, and only index 2 highlighted |
| `Layout.NoActiveDotDrawsNothing` | PageIndicator.cs:259-261 | in Multiple mode with the sentinel active dot nothing is drawn, while the measured width still covers all five dots |
| `Widget.PageIndicator.constructor` | PageIndicator.cs:50-68 | the settings are the defaults with each present attribute applied through its setter, in the source's order; afterwards one layout request and one invalidation have reached the base view, both from the defaults |
| `Widget.PageIndicator.InitPageIndicator` | PageIndicator.cs:70-77 | sets one dot, dot 0 active, spacing 0, Single mode and centre gravity; signals only when the count changes |
| `Widget.PageIndicator.RequestLayout` | PageIndicator.cs:206-212 | a layout request reaches the base view exactly when not initialising; nothing else changes |
| `Widget.PageIndicator.Invalidate` | PageIndicator.cs:214-220 | an invalidation reaches the base view exactly when not initialising; nothing else changes |
| `Widget.PageIndicator.SetDotCount` | PageIndicator.cs:83-96 | stores the clamped count; requests layout and redraw exactly when the stored count changes; leaves the other settings alone |
| `Widget.PageIndicator.SetActiveDot` | PageIndicator.cs:99-127 | stores the normalised value for the current count and type; always invalidates; never requests layout |
| `Widget.PageIndicator.SetDotDrawable` | PageIndicator.cs:130-160 | stores the drawable; requests layout and redraw unless the drawable has no intrinsic width or height |
| `Widget.PageIndicator.SetDotSpacing` | PageIndicator.cs:163-175 | stores the spacing; requests layout and redraw exactly when it changes |
| `Widget.PageIndicator.SetGravity` | PageIndicator.cs:177-188 | stores the gravity flags; invalidates exactly when they change; never requests layout |
| `Widget.PageIndicator.SetDotType` | PageIndicator.cs:190-204 | a code other than 0 or 1 changes nothing and sends no signal; a valid code is stored and invalidates exactly when the type changes; never requests layout |
| `Widget.PageIndicator.OnMeasure` | PageIndicator.cs:236-251 | returns the size `MeasuredSize` gives for the current settings and drawable, which is, in closed form, `dotCount*(w+s) - s` plus the left and right padding by `h` plus the top and bottom padding, reduced to 32 bits (only the padding without a drawable) |
| `Widget.PageIndicator.OnDraw` | PageIndicator.cs:254-294 | the loop, with its running x offset, yields the plan `Layout.Plan` specifies for the current settings; in Single mode a constructed indicator with a drawable always draws all `dotCount` glyphs |
| `Widget.PageIndicator.OnSaveInstanceState` | PageIndicator.cs:359-366 | the saved state is the current active dot |
| `Widget.PageIndicator.OnRestoreInstanceState` | PageIndicator.cs:368-374 | sets the active dot to the saved value without normalising it and without any signal; nothing else changes |

## Left out

- `ResolveSize` and `SetMeasuredDimension` are host layout primitives. `OnMeasure` stops at the size it passes to `ResolveSize`.
- `Gravity.Apply` is a host layout primitive. The plan holds its inputs: the gravity, the block size and the padded area.
- The canvas (`Save`, `Translate`, `Restore`) and `Drawable.Draw` are foreign rendering calls. A glyph's offset is modelled as the exact integer `i*step`. `Canvas.Translate` accumulates in floating point, which is not modelled.
- `Drawable.SetState`, `SetCallback`, `SetBounds` and `IsStateful` are foreign calls. This includes their omission when the `DotDrawable` setter returns early for a drawable without an intrinsic size. Every entry carries its highlight flag. The source applies that flag, through its merged `SelectedStateSet` state, only to a stateful drawable.
- `DrawableStateChanged`, `VerifyDrawable` and the `_extraState` merge belong to the host framework.
- A drawable is modelled by its intrinsic size only. Its identity is not modelled, and its size is read when it is stored. A drawable whose intrinsic size changes later is not modelled. Neither is detaching the old drawable's callback.
- The three other constructors and `ObtainStyledAttributes`/`Recycle` are host plumbing. The attributes arrive as an `Attributes` value.
- `SavedState`, its parcel reading and writing, and `GenericParcelableCreator` are OS persistence transport. Only the saved active dot is modelled.
- The static `_inRect` and `_outRect` are an allocation detail.
- The property getters only return the fields.
