# Slider widget model

A Dafny model of the slider widget of the AWTK GUI toolkit
(`src/base/slider.c`). A slider holds a 16-bit value between a minimum and a
maximum, shows it as a filled track with a square handle, and lets the user
drag the handle with the pointer. The model covers:

- **the record and its setters** (`SliderState`, `state.dfy`): `slider_t` as a
  value, the typed setters with their argument checks, and the initial
  values `slider_create` gives;
- **the property bridge** (`Properties`, `properties.dfy`): reading and
  writing properties by name through a `value_t`;
- **the geometry** (`Geometry`, `geometry.dfy`): the handle square, the filled
  and unfilled track rectangles, and the mapping from a pointer position
  back to a value;
- **painting** (`Render`, `render.dfy`): the status and the list of rectangle
  fills the painter issues, given the alpha of each style colour;
- **pointer handling** (`Interaction`, `interaction.dfy`): press, move,
  release, enter and leave as a state machine over the record, and runs of
  events;
- **the widget object** (`Widget`, `slider.dfy`): a class whose fields the
  setters and event handlers update in place. Each method is proved to
  produce the state the corresponding function describes.

`Numeric` (`numeric.dfy`) holds two C conversions and the facts about
products and quotients that the geometry proofs use. The C conversions are
`uint16_t` wrap-around (`Wrap16`) and float-to-integer truncation toward
zero (`TruncDiv`).

The C code computes the fractions in single-precision floating point. The
model keeps each fraction exactly, as a quotient `num / den` of two integers
(`Geometry.Ratio`). A quantity such as `(w - side) * fvalue`, converted to an
integer, becomes the exact quotient `(w - side) * num / den` truncated toward
zero.

## Model

| member | source | states |
|---|---|---|
| `Numeric.Wrap16` | src/base/slider.c:29-30 | A `uint16_t` difference is the value reduced modulo 2^16; it is the value itself when already in 0..65535 |
| `Numeric.TruncDiv` | src/base/slider.c:158 | The conversion of the quotient p / d to an integer truncates toward zero: p / d rounded down for p >= 0, rounded up for p < 0 (the same conversion happens at lines 38, 41, 72 and 78) |
| `Geometry.Fraction` | src/base/slider.c:29-31 | The two `uint16_t` differences: both lie in 0..65535, equal value - min and max - min when those are non-negative, and the denominator is zero exactly when max == min |
| `Geometry.HandleSide` | src/base/slider.c:34-35 | The handle side is the smaller of the widget's width and height |
| `Geometry.FractionInRange` | src/base/slider.c:29-31 | For min <= value <= max with min < max, the `uint16_t` differences do not wrap. The fraction is (value - min) / (max - min) and lies in [0, 1] |
| `Geometry.HandleRect` | src/base/slider.c:34-42 | The handle is a square of side min(w, h), with x = 0 when vertical and y = 0 when horizontal |
| `Geometry.HandleRectInside` | src/base/slider.c:34-42 | For a fraction in [0, 1] the handle lies within the widget |
| `Geometry.HandleRectMonotone` | src/base/slider.c:36-42 | With a common denominator, a larger fraction moves the handle right when horizontal, and up (toward y = 0) when vertical |
| `Geometry.HandleRectEnds` | src/base/slider.c:36-42 | At fraction 0 the handle touches the left (bottom) edge; at fraction 1 it touches the right (top) edge |
| `Geometry.DraggerRect` | src/base/slider.c:27-45 | The handle for the current value is a min(w, h) square on the track axis |
| `Geometry.DraggerRectInside` | src/base/slider.c:27-45 | For min <= value <= max with min < max, the handle lies within the widget |
| `Geometry.DraggerRectEnds` | src/base/slider.c:27-45 | The handle is at the left (bottom) edge at min and at the right (top) edge at max |
| `Geometry.DraggerRectMonotone` | src/base/slider.c:27-45 | The handle moves monotonically with the value, rightward or upward |
| `Geometry.TrackAt` | src/base/slider.c:71-100 | The fill and remainder lie in the widget, and each has half the thickness at a quarter offset. Together they cover the track: the fill is anchored at x = 0, or at the bottom when vertical |
| `Geometry.TrackRects` | src/base/slider.c:60-100 | For a paintable value, the two rectangles the painter computes partition the track as above |
| `Geometry.TrackAtGrows` | src/base/slider.c:71-81 | With a common denominator, the fill's length never shrinks as the fraction grows |
| `Geometry.TrackFillGrows` | src/base/slider.c:60-81 | The fill's length never shrinks as the value grows |
| `Geometry.TrackFillEnds` | src/base/slider.c:60-81 | The fill is empty at min and covers the whole track at max |
| `Geometry.Clamp` | src/base/slider.c:152-157 | The clamped fraction lies in [0, 1] with the same denominator. A fraction already in [0, 1] is unchanged; one below 0 becomes 0 and one above 1 becomes 1 |
| `Geometry.ClampMonotone` | src/base/slider.c:152-157 | Clamping keeps the order of two fractions with the same denominator |
| `Geometry.DragFraction` | src/base/slider.c:147-157 | The drag fraction (x / w, or 1 - y / h when vertical) after clamping lies in [0, 1], over the widget's width or height |
| `Geometry.Interpolate` | src/base/slider.c:158 | For lo <= hi and f in [0, 1], f * (hi - lo) + lo is non-negative and lies in [lo, hi] |
| `Geometry.InterpolateDown` | src/base/slider.c:158 | For lo >= hi and f in [0, 1], f * (hi - lo) + lo is non-negative and lies in [hi, lo] |
| `Geometry.ValueBounds` | src/base/slider.c:158 | f * (max - min) + min is non-negative and lies between min and max, whatever their order |
| `Geometry.ValueAt` | src/base/slider.c:158 | The truncated drag value always lies between min and max, so it fits in `uint16_t` |
| `Geometry.ValueAtMonotone` | src/base/slider.c:158 | With a common denominator and min <= max, a larger fraction never selects a smaller value |
| `Geometry.ValueAtFraction` | src/base/slider.c:29-31 | Converting a value to its fraction and back yields the same value |
| `Geometry.DragPastEnds` | src/base/slider.c:147-158 | Dragging past the start of the track selects min; dragging past the end selects max |
| `Geometry.DragMonotone` | src/base/slider.c:147-158 | Moving the pointer toward the increasing end never lowers the selected value |
| `SliderState.Initial` | src/base/slider.c:280-294 | A new slider has min 0, max 100, value 0 and delta 1. It is horizontal, not dragging, not grabbed, NORMAL, has no repaints yet, and is paintable |
| `SliderState.SetValue` | src/base/slider.c:188-197 | Returns BAD_PARAMS and changes nothing iff v < min or v > max. On success value = v, one repaint is requested, and nothing else changes |
| `SliderState.SetMin` | src/base/slider.c:199-206 | Always OK; stores min only (no re-clamp of value, no repaint) |
| `SliderState.SetMax` | src/base/slider.c:208-215 | Always OK; stores max only (no re-clamp of value, no repaint) |
| `SliderState.SetDelta` | src/base/slider.c:217-224 | OK iff delta > 0; on success only delta changes, on failure nothing does |
| `SliderState.SetVertical` | src/base/slider.c:226-233 | Always OK; stores the orientation only |
| `SliderState.SetValueIdempotent` | src/base/slider.c:188-197 | Setting the same value twice leaves the same record as setting it once, apart from the repaint count |
| `SliderState.SetMinKeepsRange` | src/base/slider.c:199-206 | After setting min, the value stays in range iff the new min does not exceed it |
| `SliderState.SetMaxKeepsRange` | src/base/slider.c:208-215 | After setting max, the value stays in range iff the value does not exceed the new max |
| `Properties.GetProp` | src/base/slider.c:235-255 | OK exactly for "value", "vertical" and "delta". "min" and "max" fill in the field but report NOT_FOUND. Unknown names report NOT_FOUND and leave the output untouched |
| `Properties.GetPropIntended` | src/base/slider.c:235-255 | The corrected reader: OK with the field for all five known names, NOT_FOUND otherwise |
| `Properties.SetProp` | src/base/slider.c:257-273 | Each known name is routed to its setter, with the int reduced to `uint16_t`, and returns that setter's result; an unknown name is NOT_FOUND and changes nothing |
| `Properties.SetThenGet` | src/base/slider.c:235-273 | After a successful write, a read through the corrected reader `GetPropIntended` returns the written value in the field's type. After a refused write, the property reads as before |
| `Properties.SetLeavesOthers` | src/base/slider.c:257-273 | Writing one property leaves every other property unchanged |
| `Properties.GetMinMaxNotFound` | src/base/slider.c:245-248 | The as-written reader reports NOT_FOUND for "min" and "max" although it filled in the value. It agrees with the corrected reader on every other name |
| `Interaction.Down` | src/base/slider.c:125-138 | A press inside the handle starts a drag, sets PRESSED, grabs and repaints; a press elsewhere changes nothing |
| `Interaction.Move` | src/base/slider.c:139-165 | Not dragging: nothing changes. Dragging: the value becomes the clamped, truncated drag value (when min <= max), a changed value adds exactly one repaint and an unchanged value adds none, and the value stays in range. With max < min the setter refuses every value, so nothing changes |
| `Interaction.Up` | src/base/slider.c:166-174 | A release ends the drag, releases the grab only if a drag was active, sets NORMAL and always repaints |
| `Interaction.OnEvent` | src/base/slider.c:119-186 | Every event keeps the drag invariant (grab held iff dragging), the range settings and an in-range value. Only a move changes the value, only a press starts a drag, and only a release ends one. Enter sets OVER, leave sets NORMAL, and any other event changes nothing |
| `Interaction.Run` | src/base/slider.c:119-186 | A run of events keeps the drag invariant, the range settings and an in-range value |
| `Interaction.RunConcat` | src/base/slider.c:119-186 | Handling a + b is handling a, then b |
| `Interaction.NoDownNoChange` | src/base/slider.c:125-165 | Without a press, an idle slider never starts dragging and its value never changes |
| `Interaction.DragLastsUntilUp` | src/base/slider.c:125-174 | Once started, a drag and its grab last until a release |
| `Interaction.ReleaseEndsDrag` | src/base/slider.c:166-174 | A release after any run of events leaves the slider not dragging, not grabbed, and NORMAL |
| `Interaction.HorizontalDragExample` | src/base/slider.c:27-45 | For 100 x 20 at value 50, the handle is the square at x = 40; pressing it and dragging to x = 90 selects 90 |
| `Interaction.VerticalDragExample` | src/base/slider.c:139-165 | Vertical at value 0, the handle is at the bottom; pressing it and dragging to y = 5 of 20 selects 75 |
| `Interaction.MissedPressNoChange` | src/base/slider.c:125-165 | A press beside the handle followed by a move leaves the slider unchanged |
| `Render.Layer` | src/base/slider.c:84-88 | A layer is drawn iff its colour's alpha is non-zero |
| `Render.Stacked` | src/base/slider.c:84-114 | Of the three layers, each fill is issued iff its alpha is non-zero, and the fills come in paint order |
| `Render.Paint` | src/base/slider.c:47-117 | OK iff max > min and value is in [min, max]; otherwise BAD_PARAMS and nothing drawn. Every fill lies in the widget, in the order fg, bg, border. The fill, remainder and handle are each drawn iff their alphas are non-zero, and nothing else is drawn |
| `Render.PaintRefusesEmptyRange` | src/base/slider.c:65-67 | An empty range or an out-of-range value paints nothing |
| `Widget.Slider.constructor` | src/base/slider.c:280-294 | A new object holds the initial record |
| `Widget.Slider.SetValue` | src/base/slider.c:188-197 | Updates the fields in place as `SliderState.SetValue` describes |
| `Widget.Slider.SetMin` | src/base/slider.c:199-206 | Updates the fields in place as `SliderState.SetMin` describes |
| `Widget.Slider.SetMax` | src/base/slider.c:208-215 | Updates the fields in place as `SliderState.SetMax` describes |
| `Widget.Slider.SetDelta` | src/base/slider.c:217-224 | Updates the fields in place as `SliderState.SetDelta` describes |
| `Widget.Slider.SetVertical` | src/base/slider.c:226-233 | Updates the fields in place as `SliderState.SetVertical` describes |
| `Widget.Slider.SetProp` | src/base/slider.c:257-273 | Dispatches to the object's own setters, as `Properties.SetProp` describes |
| `Widget.Slider.PointerDown` | src/base/slider.c:125-138 | Updates the fields in place as `Interaction.Down` describes |
| `Widget.Slider.PointerMove` | src/base/slider.c:139-165 | Computes and clamps the drag fraction step by step, then stores the value through `SetValue` as `Interaction.Move` describes |
| `Widget.Slider.PointerUp` | src/base/slider.c:166-174 | Updates the fields in place as `Interaction.Up` describes |
| `Widget.Slider.OnEvent` | src/base/slider.c:119-186 | Returns OK and updates the fields as `Interaction.OnEvent` describes, keeping the drag invariant |
| `Widget.DragSession` | src/base/slider.c:119-197 | A fresh slider set to 50, pressed on its handle, dragged to x = 90 and released holds 90 and no grab |

## Left out

- `Interaction.Down`, `Geometry.DraggerRect`, `Widget.Slider.PointerDown`, and for a press `Interaction.OnEvent`, `Interaction.Run` (through `Handleable`) and `Widget.Slider.OnEvent` require a non-zero `uint16_t` range (max != min). With an empty range, `slider_get_dragger_rect` divides value - min by zero in floating point, giving NaN or an infinity. Converting that position to an integer is undefined behaviour in C, so the model does not describe it.
- `Interaction.Move` and `Widget.Slider.PointerMove`: the division by the widget's width or height happens only while dragging. A drag can start only on a handle of positive size, so a zero-sized widget never reaches it; this relies on the half-open `rect_contains` assumed below. The drag invariant carries this fact.
- Single-precision floating-point rounding is not modelled. Fractions are exact quotients of integers, and a float-to-integer conversion is truncation toward zero. At the boundaries, rounding of the float may select a neighbouring pixel or value.
- The widths of `xy_t` and `wh_t` are not modelled; coordinates and sizes are unbounded integers.
- `rect_contains` (base/rect.h) is not part of this model. It is taken to be the half-open test x <= px < x + w and y <= py < y + h.
- `widget_to_local` is not part of this model. Event coordinates are taken as already local to the widget.
- `widget_grab` and `widget_ungrab` are modelled as one flag, so a second grab while one is held is not counted separately.
- `widget_invalidate` is modelled as a counter of repaint requests made by the slider itself. Repaints that `widget_set_state` may request on its own are not counted.
- `value_int` and `value_bool` (value.c) are not part of this model. They are taken to map a boolean to 0 or 1 and an int to true when it is non-zero. The narrowing of that int to `uint16_t` is modelled with `Wrap16`.
- The NULL checks on the widget, canvas, name and value arguments are not modelled: every reference in the model is present.
- The string comparison in the property bridge is modelled as equality of names.
- Drawing, colour lookup and image handling are not modelled. The canvas is reduced to the list of (role, rectangle) fills, and each style colour to its alpha.
- `widget_init`, `widget_move_resize`, the vtable and allocation failure are not modelled. The object's size is fixed when it is constructed.

## Findings

| source | as written | input that shows it | evidently intended | confidence | as-written member | corrected member |
|---|---|---|---|---|---|---|
| src/base/slider.c:245-248 | For "min" and "max", `slider_get_prop` fills in the value but has no `return RET_OK`. It falls through to `return RET_NOT_FOUND`. | Read the property "min" of a fresh slider: the out value is 0, the status is NOT_FOUND | Return OK for "min" and "max", as for "value", "vertical" and "delta" | high; not executed | `Properties.GetMinMaxNotFound` | `Properties.GetPropIntended`, `Properties.SetThenGet` |
