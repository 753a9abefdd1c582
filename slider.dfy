/** The slider widget object (slider_t in src/base/slider.c) whose fields
    the setters and the event handler update in place. Every method is
    proved to leave the object in the state the corresponding function of
    SliderState, Properties or Interaction describes. */
module Widget {
  import opened Numeric
  import opened Geometry
  import opened SliderState
  import Properties
  import Interaction

  class Slider {
    var min: U16
    var max: U16
    var value: U16
    var delta: U16
    var vertical: bool
    var dragging: bool
    /** The widget state chosen through widget_set_state. */
    var visual: VisualState
    /** Whether the parent routes the pointer to this slider (widget_grab). */
    var grabbed: bool
    /** The number of repaint requests (widget_invalidate). */
    var invalidations: nat
    /** The widget's size; resizing is done by the widget framework. */
    const w: nat
    const h: nat

    /** The record the object currently holds. */
    function View(): State
      reads this
    {
      State(min, max, value, delta, vertical, dragging, visual, grabbed, invalidations)
    }

    /** The object keeps the drag invariant between calls. */
    ghost predicate Valid()
      reads this
    {
      Interaction.DragInv(View(), w, h)
    }

    /** slider_create: a zero-filled slider_t with min 0, max 100, delta 1
        and value 0, of size w x h. */
    constructor (w: nat, h: nat)
      ensures Valid() && View() == Initial() && this.w == w && this.h == h
    {
      this.w, this.h := w, h;
      vertical, dragging, visual, grabbed, invalidations := false, false, Normal, false, 0;
      min := 0;
      max := 100;
      delta := 1;
      value := 0;
    }

    method SetValue(v: U16) returns (status: Status)
      requires Valid()
      modifies this
      ensures Valid() && Step(status, View()) == SliderState.SetValue(old(View()), v)
    {
      if !(v <= max && v >= min) {
        return BadParams;
      }
      value := v;
      invalidations := invalidations + 1;
      status := OK;
    }

    method SetMin(m: U16) returns (status: Status)
      requires Valid()
      modifies this
      ensures Valid() && Step(status, View()) == SliderState.SetMin(old(View()), m)
    {
      min := m;
      status := OK;
    }

    method SetMax(m: U16) returns (status: Status)
      requires Valid()
      modifies this
      ensures Valid() && Step(status, View()) == SliderState.SetMax(old(View()), m)
    {
      max := m;
      status := OK;
    }

    method SetDelta(d: U16) returns (status: Status)
      requires Valid()
      modifies this
      ensures Valid() && Step(status, View()) == SliderState.SetDelta(old(View()), d)
    {
      if !(d > 0) {
        return BadParams;
      }
      delta := d;
      status := OK;
    }

    method SetVertical(b: bool) returns (status: Status)
      requires Valid()
      modifies this
      ensures Valid() && Step(status, View()) == SliderState.SetVertical(old(View()), b)
    {
      vertical := b;
      status := OK;
    }

    /** slider_set_prop: hands the value to the setter the name selects. */
    method SetProp(name: string, v: Properties.PropValue) returns (status: Status)
      requires Valid()
      modifies this
      ensures Valid() && Step(status, View()) == Properties.SetProp(old(View()), name, v)
    {
      if name == "value" {
        status := SetValue(Wrap16(Properties.AsInt(v)));
      } else if name == "vertical" {
        status := SetVertical(Properties.AsBool(v));
      } else if name == "min" {
        status := SetMin(Wrap16(Properties.AsInt(v)));
      } else if name == "max" {
        status := SetMax(Wrap16(Properties.AsInt(v)));
      } else if name == "delta" {
        status := SetDelta(Wrap16(Properties.AsInt(v)));
      } else {
        status := NotFound;
      }
    }

    method PointerDown(x: int, y: int)
      requires Valid() && Interaction.HandleDefined(View())
      modifies this
      ensures Valid() && View() == Interaction.Down(old(View()), w, h, x, y)
    {
      var r := DraggerRect(w, h, value, min, max, vertical);
      if Contains(r, x, y) {
        dragging := true;
        visual := Pressed;
        grabbed := true;
        invalidations := invalidations + 1;
      }
    }

    method PointerMove(x: int, y: int)
      requires Valid()
      modifies this
      ensures Valid() && View() == Interaction.Move(old(View()), w, h, x, y)
    {
      if dragging {
        // The fraction num / den: y measured from the bottom when
        // vertical, x from the left otherwise, clamped to [0, 1].
        var num, den;
        if vertical {
          num, den := h - y, h;
        } else {
          num, den := x, w;
        }
        if num < 0 {
          num := 0;
        }
        if num > den {
          num := den;
        }
        var f := Ratio(num, den);
        assert f == DragFraction(w, h, vertical, x, y);
        var v := ValueAt(f, min, max);
        if v != value {
          var _ := SetValue(v);
        }
      }
    }

    method PointerUp()
      requires Valid()
      modifies this
      ensures Valid() && View() == Interaction.Up(old(View()))
    {
      if dragging {
        dragging := false;
        grabbed := false;
      }
      visual := Normal;
      invalidations := invalidations + 1;
    }

    /** slider_on_event: always reports RET_OK. */
    method OnEvent(e: Interaction.Event) returns (status: Status)
      requires Valid()
      requires e.PointerDown? ==> Interaction.HandleDefined(View())
      modifies this
      ensures status == OK
      ensures Valid() && View() == Interaction.OnEvent(old(View()), w, h, e)
    {
      status := OK;
      match e
      case PointerDown(x, y) => PointerDown(x, y);
      case PointerMove(x, y) => PointerMove(x, y);
      case PointerUp => PointerUp();
      case PointerLeave => visual := Normal;
      case PointerEnter => visual := Over;
      case Other =>
    }
  }

  /** A client of the widget: a fresh 100 x 20 slider set to 50, pressed
      on its handle and dragged to x = 90, ends at 90 without a grab once
      released. */
  method DragSession() returns (v: U16, held: bool)
    ensures v == 90 && !held
  {
    var s := new Slider(100, 20);
    var st := s.SetValue(50);
    assert s.View() == Initial().(value := 50, invalidations := 1);
    Interaction.HorizontalDragExample();
    st := s.OnEvent(Interaction.PointerDown(45, 10));
    st := s.OnEvent(Interaction.PointerMove(90, 10));
    v := s.value;
    st := s.OnEvent(Interaction.PointerUp);
    held := s.grabbed;
  }
}
