/** Painting the slider (slider_on_paint_self in src/base/slider.c): the
    filled part of the track in the foreground colour, the rest of the
    track in the background colour, then the handle in the border colour.
    A colour whose alpha is zero is not drawn. The canvas is represented
    by the list of rectangle fills it receives. */
module Render {
  import opened Geometry
  import opened SliderState

  type U8 = x: int | 0 <= x < 0x100

  /** The style colour a rectangle is filled with. */
  datatype Role = Foreground | Background | Border

  /** One canvas_fill_rect call. */
  datatype Fill = Fill(role: Role, rect: Rect)

  /** The alpha channels of the three style colours. */
  datatype Alphas = Alphas(fg: U8, bg: U8, border: U8)

  /** The status the painter returns and the fills it issued. */
  datatype Painted = Painted(status: Status, draws: seq<Fill>)

  /** Paint order of the three layers. */
  function Rank(role: Role): nat {
    match role
    case Foreground => 0
    case Background => 1
    case Border => 2
  }

  /** A layer is filled only when its colour is not fully transparent. */
  function Layer(f: Fill, alpha: U8): (fs: seq<Fill>)
    ensures |fs| <= 1
    ensures forall g :: g in fs <==> g == f && alpha != 0
  {
    if alpha != 0 then [f] else []
  }

  /** Three layers painted one after the other: each fill is issued iff
      its alpha is non-zero, and the fills come in paint order. */
  lemma Stacked(f1: Fill, a1: U8, f2: Fill, a2: U8, f3: Fill, a3: U8)
    requires Rank(f1.role) < Rank(f2.role) < Rank(f3.role)
    ensures var ds := Layer(f1, a1) + Layer(f2, a2) + Layer(f3, a3);
      |ds| <= 3 &&
      (forall g :: g in ds <==> (g == f1 && a1 != 0) || (g == f2 && a2 != 0) || (g == f3 && a3 != 0)) &&
      (forall i, j :: 0 <= i < j < |ds| ==> Rank(ds[i].role) < Rank(ds[j].role))
  {
    var l1, l2, l3 := Layer(f1, a1), Layer(f2, a2), Layer(f3, a3);
    var ds := l1 + l2 + l3;
    assert forall g :: g in ds <==> g in l1 || g in l2 || g in l3;
    forall i, j | 0 <= i < j < |ds|
      ensures Rank(ds[i].role) < Rank(ds[j].role)
    {
      assert ds[i] in ds && ds[j] in ds;
      if i < |l1| {
        assert ds[i] == f1 && (ds[j] == f2 || ds[j] == f3);
      } else if i < |l1| + |l2| {
        assert ds[i] == f2 && j >= |l1| + |l2| && ds[j] == f3;
      } else {
        assert false;
      }
    }
  }

  /** slider_on_paint_self for a widget of width w and height h. */
  function Paint(s: State, w: nat, h: nat, alphas: Alphas): (r: Painted)
    ensures r.status == OK <==> Paintable(s)
    ensures r.status != OK ==> r.status == BadParams && r.draws == []
    ensures |r.draws| <= 3
    ensures forall f :: f in r.draws ==> Inside(f.rect, w, h)
    ensures forall i, j :: 0 <= i < j < |r.draws| ==> Rank(r.draws[i].role) < Rank(r.draws[j].role)
    ensures Paintable(s) ==>
      (Fill(Foreground, TrackRects(w, h, s.value, s.min, s.max, s.vertical).fill) in r.draws <==> alphas.fg != 0) &&
      (Fill(Background, TrackRects(w, h, s.value, s.min, s.max, s.vertical).rest) in r.draws <==> alphas.bg != 0) &&
      (Fill(Border, DraggerRect(w, h, s.value, s.min, s.max, s.vertical)) in r.draws <==> alphas.border != 0)
    ensures Paintable(s) ==> forall f :: f in r.draws ==>
      f == Fill(Foreground, TrackRects(w, h, s.value, s.min, s.max, s.vertical).fill) ||
      f == Fill(Background, TrackRects(w, h, s.value, s.min, s.max, s.vertical).rest) ||
      f == Fill(Border, DraggerRect(w, h, s.value, s.min, s.max, s.vertical))
  {
    if !Paintable(s) then Painted(BadParams, [])
    else
      var track := TrackRects(w, h, s.value, s.min, s.max, s.vertical);
      var handle := DraggerRect(w, h, s.value, s.min, s.max, s.vertical);
      DraggerRectInside(w, h, s.value, s.min, s.max, s.vertical);
      var fg, bg, border := Fill(Foreground, track.fill), Fill(Background, track.rest), Fill(Border, handle);
      Stacked(fg, alphas.fg, bg, alphas.bg, border, alphas.border);
      Painted(OK, Layer(fg, alphas.fg) + Layer(bg, alphas.bg) + Layer(border, alphas.border))
  }

  /** A record the painter refuses: an empty range (max == min) or a value
      outside [min, max]. Nothing is drawn for it. */
  lemma PaintRefusesEmptyRange(s: State, w: nat, h: nat, alphas: Alphas)
    requires s.max <= s.min || !InRange(s)
    ensures Paint(s, w, h, alphas) == Painted(BadParams, [])
  {
  }
}
