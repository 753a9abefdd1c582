/** Pixel geometry of the slider (src/base/slider.c): the handle square,
    the two track rectangles, and the mapping from a pointer position back
    to a value. The source computes these fractions in single-precision
    floating point; here each fraction is kept exactly as a quotient of two
    integers, and every conversion of a result to an integer truncates
    toward zero as C does. Each shape is first given for a fraction and
    then for a value. */
module Geometry {
  import opened Numeric

  /** rect_t: position and size in pixels, in the widget's own coordinates. */
  datatype Rect = Rect(x: int, y: int, w: int, h: int)

  /** rect_contains, taken as a half-open point-in-rectangle test. */
  predicate Contains(r: Rect, px: int, py: int) {
    r.x <= px < r.x + r.w && r.y <= py < r.y + r.h
  }

  /** The rectangle lies within a widget of width w and height h. */
  predicate Inside(r: Rect, w: int, h: int) {
    0 <= r.x && 0 <= r.y && 0 <= r.w && 0 <= r.h && r.x + r.w <= w && r.y + r.h <= h
  }

  /** The handle is a square whose side is the smaller widget dimension. */
  function HandleSide(w: nat, h: nat): (side: nat)
    ensures side <= w && side <= h
    ensures side == w || side == h
  {
    if w < h then w else h
  }

  /** The fraction num / den. */
  datatype Ratio = Ratio(num: int, den: int)

  /** A fraction in [0, 1] with a positive denominator. */
  predicate Unit(q: Ratio) {
    0 < q.den && 0 <= q.num <= q.den
  }

  // ---------------------------------------------------------------------
  // The fraction of the range a value stands for

  /** (value - min) / (max - min), with both differences taken in
      uint16_t as the source does. */
  function Fraction(value: U16, min: U16, max: U16): (q: Ratio)
    ensures 0 <= q.num < 0x1_0000 && 0 <= q.den < 0x1_0000
    ensures min <= value ==> q.num == value - min
    ensures min <= max ==> q.den == max - min
    ensures q.den == 0 <==> min == max
  {
    Ratio(Wrap16(value - min), Wrap16(max - min))
  }

  /** Within a non-empty range [min, max] neither uint16_t difference
      wraps, so the fraction of a value is (value - min) / (max - min)
      and lies in [0, 1]. */
  lemma FractionInRange(value: U16, min: U16, max: U16)
    requires min <= value <= max && min < max
    ensures Fraction(value, min, max) == Ratio(value - min, max - min)
    ensures Unit(Fraction(value, min, max))
  {
  }

  // ---------------------------------------------------------------------
  // The handle

  /** The handle square at fraction q: along x when horizontal, along y
      from the bottom up when vertical. For the vertical offset
      (h - side) * (1 - q) the fraction 1 - q is (den - num) / den. */
  function HandleRect(w: nat, h: nat, q: Ratio, vertical: bool): (r: Rect)
    requires q.den > 0
    ensures r.w == r.h == HandleSide(w, h)
    ensures vertical ==> r.x == 0
    ensures !vertical ==> r.y == 0
  {
    var side := HandleSide(w, h);
    if vertical then Rect(0, TruncDiv((h - side) * (q.den - q.num), q.den), side, side)
    else Rect(TruncDiv((w - side) * q.num, q.den), 0, side, side)
  }

  lemma HandleRectInside(w: nat, h: nat, q: Ratio, vertical: bool)
    requires Unit(q)
    ensures Inside(HandleRect(w, h, q, vertical), w, h)
  {
    var side := HandleSide(w, h);
    if vertical {
      ScaledBounds(h - side, q.den - q.num, q.den);
    } else {
      ScaledBounds(w - side, q.num, q.den);
    }
  }

  /** With a common denominator, a larger fraction moves the handle right
      (horizontal) or up toward y = 0 (vertical). */
  lemma HandleRectMonotone(w: nat, h: nat, q1: Ratio, q2: Ratio, vertical: bool)
    requires Unit(q1) && Unit(q2) && q1.den == q2.den && q1.num <= q2.num
    ensures vertical ==> HandleRect(w, h, q2, vertical).y <= HandleRect(w, h, q1, vertical).y
    ensures !vertical ==> HandleRect(w, h, q1, vertical).x <= HandleRect(w, h, q2, vertical).x
  {
    var side := HandleSide(w, h);
    if vertical {
      ScaledMono(h - side, q2.den - q2.num, q1.den - q1.num, q1.den);
    } else {
      ScaledMono(w - side, q1.num, q2.num, q1.den);
    }
  }

  lemma HandleRectEnds(w: nat, h: nat, d: int, vertical: bool)
    requires d > 0
    ensures vertical ==> HandleRect(w, h, Ratio(0, d), vertical).y == h - HandleSide(w, h)
    ensures vertical ==> HandleRect(w, h, Ratio(d, d), vertical).y == 0
    ensures !vertical ==> HandleRect(w, h, Ratio(0, d), vertical).x == 0
    ensures !vertical ==> HandleRect(w, h, Ratio(d, d), vertical).x == w - HandleSide(w, h)
  {
    var side := HandleSide(w, h);
    MulDivCancel(h - side, d);
    MulDivCancel(w - side, d);
  }

  /** slider_get_dragger_rect: the handle square for the current value. */
  function DraggerRect(w: nat, h: nat, value: U16, min: U16, max: U16, vertical: bool): (r: Rect)
    requires Wrap16(max - min) != 0
    ensures r.w == r.h == HandleSide(w, h)
    ensures vertical ==> r.x == 0
    ensures !vertical ==> r.y == 0
  {
    HandleRect(w, h, Fraction(value, min, max), vertical)
  }

  /** For a value within [min, max] the handle lies within the widget. */
  lemma DraggerRectInside(w: nat, h: nat, value: U16, min: U16, max: U16, vertical: bool)
    requires min <= value <= max && min < max
    ensures Inside(DraggerRect(w, h, value, min, max, vertical), w, h)
  {
    FractionInRange(value, min, max);
    HandleRectInside(w, h, Fraction(value, min, max), vertical);
  }

  /** The handle sits at the left (bottom) edge at min and at the right
      (top) edge at max. */
  lemma DraggerRectEnds(w: nat, h: nat, min: U16, max: U16, vertical: bool)
    requires min < max
    ensures vertical ==> DraggerRect(w, h, min, min, max, vertical).y == h - HandleSide(w, h)
    ensures vertical ==> DraggerRect(w, h, max, min, max, vertical).y == 0
    ensures !vertical ==> DraggerRect(w, h, min, min, max, vertical).x == 0
    ensures !vertical ==> DraggerRect(w, h, max, min, max, vertical).x == w - HandleSide(w, h)
  {
    FractionInRange(min, min, max);
    FractionInRange(max, min, max);
    HandleRectEnds(w, h, max - min, vertical);
  }

  /** The handle moves monotonically with the value: rightward when
      horizontal, upward (toward y = 0) when vertical. */
  lemma DraggerRectMonotone(w: nat, h: nat, v1: U16, v2: U16, min: U16, max: U16, vertical: bool)
    requires min <= v1 <= v2 <= max && min < max
    ensures vertical ==> DraggerRect(w, h, v2, min, max, vertical).y <= DraggerRect(w, h, v1, min, max, vertical).y
    ensures !vertical ==> DraggerRect(w, h, v1, min, max, vertical).x <= DraggerRect(w, h, v2, min, max, vertical).x
  {
    FractionInRange(v1, min, max);
    FractionInRange(v2, min, max);
    HandleRectMonotone(w, h, Fraction(v1, min, max), Fraction(v2, min, max), vertical);
  }

  // ---------------------------------------------------------------------
  // The track

  /** The filled part of the track and the unfilled remainder. */
  datatype Track = Track(fill: Rect, rest: Rect)

  /** The two track rectangles lie in the widget, each has half the
      widget's thickness and is offset by a quarter of it, and together
      they cover the track's whole length: the fill from the left edge
      (horizontal) or up from the bottom edge (vertical), the remainder
      after it. */
  predicate Partitions(t: Track, w: nat, h: nat, vertical: bool) {
    Inside(t.fill, w, h) && Inside(t.rest, w, h) &&
    (vertical ==>
      t.fill.x == t.rest.x == w / 4 && t.fill.w == t.rest.w == w / 2 &&
      t.rest.y == 0 && t.fill.y == t.rest.h && t.fill.y + t.fill.h == h) &&
    (!vertical ==>
      t.fill.y == t.rest.y == h / 4 && t.fill.h == t.rest.h == h / 2 &&
      t.fill.x == 0 && t.rest.x == t.fill.w && t.fill.w + t.rest.w == w)
  }

  /** The track rectangles at fraction q. */
  function TrackAt(w: nat, h: nat, q: Ratio, vertical: bool): (t: Track)
    requires Unit(q)
    ensures Partitions(t, w, h, vertical)
  {
    if vertical then
      var fh := TruncDiv(h * q.num, q.den);
      ScaledBounds(h, q.num, q.den);
      Track(Rect(w / 4, h - fh, w / 2, fh), Rect(w / 4, 0, w / 2, h - fh))
    else
      var fw := TruncDiv(w * q.num, q.den);
      ScaledBounds(w, q.num, q.den);
      Track(Rect(0, h / 4, fw, h / 2), Rect(fw, h / 4, w - fw, h / 2))
  }

  /** The track rectangles painted by slider_on_paint_self for the current
      value. */
  function TrackRects(w: nat, h: nat, value: U16, min: U16, max: U16, vertical: bool): (t: Track)
    requires min < max && min <= value <= max
    ensures Partitions(t, w, h, vertical)
  {
    FractionInRange(value, min, max);
    TrackAt(w, h, Fraction(value, min, max), vertical)
  }

  lemma TrackAtGrows(w: nat, h: nat, q1: Ratio, q2: Ratio, vertical: bool)
    requires Unit(q1) && Unit(q2) && q1.den == q2.den && q1.num <= q2.num
    ensures vertical ==> TrackAt(w, h, q1, vertical).fill.h <= TrackAt(w, h, q2, vertical).fill.h
    ensures !vertical ==> TrackAt(w, h, q1, vertical).fill.w <= TrackAt(w, h, q2, vertical).fill.w
  {
    var n := if vertical then h else w;
    ScaledMono(n, q1.num, q2.num, q1.den);
    MulMono(n, 0, q1.num);
    MulMono(n, 0, q2.num);
    assert TruncDiv(n * q1.num, q1.den) == n * q1.num / q1.den;
    assert TruncDiv(n * q2.num, q2.den) == n * q2.num / q2.den;
  }

  /** The fill grows with the value. */
  lemma TrackFillGrows(w: nat, h: nat, v1: U16, v2: U16, min: U16, max: U16, vertical: bool)
    requires min <= v1 <= v2 <= max && min < max
    ensures vertical ==> TrackRects(w, h, v1, min, max, vertical).fill.h <= TrackRects(w, h, v2, min, max, vertical).fill.h
    ensures !vertical ==> TrackRects(w, h, v1, min, max, vertical).fill.w <= TrackRects(w, h, v2, min, max, vertical).fill.w
  {
    FractionInRange(v1, min, max);
    FractionInRange(v2, min, max);
    TrackAtGrows(w, h, Fraction(v1, min, max), Fraction(v2, min, max), vertical);
  }

  /** The fill is empty at min and covers the whole track at max. */
  lemma TrackFillEnds(w: nat, h: nat, min: U16, max: U16, vertical: bool)
    requires min < max
    ensures vertical ==> TrackRects(w, h, min, min, max, vertical).fill.h == 0
    ensures vertical ==> TrackRects(w, h, max, min, max, vertical).fill.h == h
    ensures !vertical ==> TrackRects(w, h, min, min, max, vertical).fill.w == 0
    ensures !vertical ==> TrackRects(w, h, max, min, max, vertical).fill.w == w
  {
    FractionInRange(min, min, max);
    FractionInRange(max, min, max);
    MulDivCancel(w, max - min);
    MulDivCancel(h, max - min);
  }

  // ---------------------------------------------------------------------
  // From a pointer position back to a value

  /** Clamping of a fraction with a positive denominator to [0, 1]. */
  function Clamp(q: Ratio): (c: Ratio)
    requires q.den > 0
    ensures Unit(c) && c.den == q.den
    ensures Unit(q) ==> c == q
    ensures q.num < 0 ==> c.num == 0
    ensures q.num > q.den ==> c.num == c.den
  {
    if q.num < 0 then Ratio(0, q.den)
    else if q.num > q.den then Ratio(q.den, q.den)
    else q
  }

  /** Clamping keeps the order of two fractions with the same denominator. */
  lemma ClampMonotone(q1: Ratio, q2: Ratio)
    requires q1.den > 0 && q1.den == q2.den && q1.num <= q2.num
    ensures Clamp(q1).num <= Clamp(q2).num
  {
  }

  /** The fraction a pointer at local (px, py) selects while dragging,
      clamped to [0, 1]: px / w horizontally, and 1 - py / h, that is
      (h - py) / h, vertically (the value grows upward). */
  function DragFraction(w: nat, h: nat, vertical: bool, px: int, py: int): (q: Ratio)
    requires if vertical then h > 0 else w > 0
    ensures Unit(q) && q.den == (if vertical then h else w)
  {
    Clamp(if vertical then Ratio(h - py, h) else Ratio(px, w))
  }

  /** With lo <= hi, scaling (hi - lo) by a / d in [0, 1] and adding lo
      gives a non-negative quotient between lo and hi. */
  lemma Interpolate(a: int, d: int, lo: nat, hi: nat)
    requires 0 <= a <= d && 0 < d && lo <= hi
    ensures var p := a * (hi - lo) + lo * d; 0 <= p && lo <= p / d <= hi
  {
    var p := a * (hi - lo) + lo * d;
    ScaledBounds(hi - lo, a, d);
    assert a * (hi - lo) == (hi - lo) * a;
    assert (hi - lo) * d + lo * d == hi * d;
    MulMono(d, 0, lo);
    DivMono(lo * d, p, d);
    DivMono(p, hi * d, d);
    MulDivCancel(lo, d);
    MulDivCancel(hi, d);
  }

  /** With lo >= hi, the same interpolation runs downward: the quotient
      lies between hi and lo. */
  lemma InterpolateDown(a: int, d: int, lo: nat, hi: nat)
    requires 0 <= a <= d && 0 < d && hi <= lo
    ensures var p := a * (hi - lo) + lo * d; 0 <= p && hi <= p / d <= lo
  {
    var e := lo - hi;
    var p := a * (hi - lo) + lo * d;
    ScaledBounds(e, a, d);
    assert a * (hi - lo) == -(e * a);
    assert lo * d - e * d == hi * d;
    MulMono(d, 0, hi);
    DivMono(hi * d, p, d);
    DivMono(p, lo * d, d);
    MulDivCancel(lo, d);
    MulDivCancel(hi, d);
  }

  /** f * (max - min) + min, for f = q, as the quotient p / q.den: p is
      non-negative and the quotient lies between min and max, whatever
      their order. */
  lemma ValueBounds(q: Ratio, min: U16, max: U16)
    requires Unit(q)
    ensures var p := q.num * (max - min) + min * q.den;
      0 <= p &&
      (min <= max ==> min <= p / q.den <= max) &&
      (max <= min ==> max <= p / q.den <= min)
  {
    if min <= max {
      Interpolate(q.num, q.den, min, max);
    }
    if max <= min {
      InterpolateDown(q.num, q.den, min, max);
    }
  }

  /** The value a drag fraction selects: f * (max - min) + min, truncated
      to an integer. It lies between min and max whatever their order. */
  function ValueAt(q: Ratio, min: U16, max: U16): (v: U16)
    requires Unit(q)
    ensures min <= max ==> min <= v <= max
    ensures max <= min ==> max <= v <= min
  {
    ValueBounds(q, min, max);
    TruncDiv(q.num * (max - min) + min * q.den, q.den)
  }

  /** With a common denominator, a larger fraction never selects a smaller
      value (for a well-ordered range). */
  lemma ValueAtMonotone(q1: Ratio, q2: Ratio, min: U16, max: U16)
    requires Unit(q1) && Unit(q2) && q1.den == q2.den && q1.num <= q2.num && min <= max
    ensures ValueAt(q1, min, max) <= ValueAt(q2, min, max)
  {
    var d := q1.den;
    ValueBounds(q1, min, max);
    ValueBounds(q2, min, max);
    MulMono(max - min, q1.num, q2.num);
    assert q1.num * (max - min) <= q2.num * (max - min);
    DivMono(q1.num * (max - min) + min * d, q2.num * (max - min) + min * d, d);
  }

  /** Mapping a value to its fraction and back returns the value. */
  lemma ValueAtFraction(v: U16, min: U16, max: U16)
    requires min <= v <= max && min < max
    ensures Unit(Fraction(v, min, max)) && ValueAt(Fraction(v, min, max), min, max) == v
  {
    FractionInRange(v, min, max);
    var d := max - min;
    assert (v - min) * d + min * d == v * d;
    MulDivCancel(v, d);
  }

  /** Dragging past either end of the track selects min or max. */
  lemma DragPastEnds(w: nat, h: nat, vertical: bool, px: int, py: int, min: U16, max: U16)
    requires if vertical then h > 0 else w > 0
    ensures var v := ValueAt(DragFraction(w, h, vertical, px, py), min, max);
      (!vertical && px <= 0 ==> v == min) && (!vertical && px >= w ==> v == max) &&
      (vertical && py >= h ==> v == min) && (vertical && py <= 0 ==> v == max)
  {
    var d := if vertical then h else w;
    var q := DragFraction(w, h, vertical, px, py);
    if q.num == 0 {
      MulDivCancel(min, d);
    }
    if q.num == d {
      assert d * (max - min) + min * d == max * d;
      MulDivCancel(max, d);
    }
  }

  /** Moving the pointer toward the value-increasing end never lowers the
      selected value (for a well-ordered range). */
  lemma DragMonotone(w: nat, h: nat, vertical: bool, px1: int, py1: int, px2: int, py2: int,
                     min: U16, max: U16)
    requires if vertical then h > 0 else w > 0
    requires min <= max
    requires vertical ==> py2 <= py1
    requires !vertical ==> px1 <= px2
    ensures ValueAt(DragFraction(w, h, vertical, px1, py1), min, max)
         <= ValueAt(DragFraction(w, h, vertical, px2, py2), min, max)
  {
    if vertical {
      ClampMonotone(Ratio(h - py1, h), Ratio(h - py2, h));
    } else {
      ClampMonotone(Ratio(px1, w), Ratio(px2, w));
    }
    ValueAtMonotone(DragFraction(w, h, vertical, px1, py1), DragFraction(w, h, vertical, px2, py2), min, max);
  }
}
