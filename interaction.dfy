/** Pointer handling of the slider (slider_on_event in src/base/slider.c):
    pressing the handle starts a drag and grabs the pointer, moving while
    dragging selects the value under the pointer, releasing ends the drag.
    Event coordinates are taken as already converted to the widget's own
    coordinates (widget_to_local). */
module Interaction {
  import opened Numeric
  import opened Geometry
  import opened SliderState

  /** The events the slider reacts to; everything else is Other. */
  datatype Event =
    | PointerDown(x: int, y: int)
    | PointerMove(x: int, y: int)
    | PointerUp
    | PointerEnter
    | PointerLeave
    | Other

  /** The slider holds the grab exactly while it drags, and it only drags
      a widget of positive size (the handle of an empty widget contains no
      point). */
  predicate DragInv(s: State, w: nat, h: nat) {
    s.grabbed == s.dragging && (s.dragging ==> w > 0 && h > 0)
  }

  /** The handle position is defined: the uint16_t range is not zero. */
  predicate HandleDefined(s: State) {
    Wrap16(s.max - s.min) != 0
  }

  /** Pointer down: a press on the handle starts a drag, shows the pressed
      state, grabs the pointer and repaints; a press elsewhere does
      nothing. */
  function Down(s: State, w: nat, h: nat, x: int, y: int): (r: State)
    requires DragInv(s, w, h) && HandleDefined(s)
    ensures DragInv(r, w, h)
    ensures var hit := Contains(DraggerRect(w, h, s.value, s.min, s.max, s.vertical), x, y);
      (hit ==> r == s.(dragging := true, visual := Pressed, grabbed := true,
                       invalidations := s.invalidations + 1)) &&
      (!hit ==> r == s)
  {
    if Contains(DraggerRect(w, h, s.value, s.min, s.max, s.vertical), x, y) then
      s.(dragging := true, visual := Pressed, grabbed := true, invalidations := s.invalidations + 1)
    else s
  }

  /** Pointer move: while dragging, the value under the pointer is stored
      through slider_set_value when it differs from the current one; a
      value the setter refuses leaves the record as it was. */
  function Move(s: State, w: nat, h: nat, x: int, y: int): (r: State)
    requires DragInv(s, w, h)
    ensures DragInv(r, w, h)
    ensures r.(value := s.value, invalidations := s.invalidations) == s
    ensures r.invalidations == s.invalidations + (if r.value != s.value then 1 else 0)
    ensures !s.dragging ==> r == s
    ensures s.dragging && s.min <= s.max ==>
      r.value == ValueAt(DragFraction(w, h, s.vertical, x, y), s.min, s.max)
    ensures s.max < s.min ==> r == s
    ensures InRange(s) ==> InRange(r)
  {
    if s.dragging then
      var v := ValueAt(DragFraction(w, h, s.vertical, x, y), s.min, s.max);
      if v != s.value then SetValue(s, v).next else s
    else s
  }

  /** Pointer up: an active drag ends and only then is the grab released
      (so each grab taken by a press is released once); the state returns
      to normal and the widget is repainted in any case. */
  function Up(s: State): (r: State)
    ensures !r.dragging && r.visual == Normal
    ensures r.grabbed == (s.grabbed && !s.dragging)
    ensures r.invalidations == s.invalidations + 1
    ensures r.(dragging := s.dragging, grabbed := s.grabbed, visual := s.visual,
               invalidations := s.invalidations) == s
  {
    var released := if s.dragging then s.(dragging := false, grabbed := false) else s;
    released.(visual := Normal, invalidations := s.invalidations + 1)
  }

  /** slider_on_event: dispatches on the event type and always reports
      RET_OK. */
  function OnEvent(s: State, w: nat, h: nat, e: Event): (r: State)
    requires DragInv(s, w, h)
    requires e.PointerDown? ==> HandleDefined(s)
    ensures DragInv(r, w, h)
    ensures r.min == s.min && r.max == s.max && r.delta == s.delta && r.vertical == s.vertical
    ensures InRange(s) ==> InRange(r)
    ensures r.value != s.value ==> e.PointerMove?
    ensures r.dragging && !s.dragging ==> e.PointerDown?
    ensures !r.dragging && s.dragging ==> e.PointerUp?
    ensures e.PointerEnter? ==> r == s.(visual := Over)
    ensures e.PointerLeave? ==> r == s.(visual := Normal)
    ensures e.Other? ==> r == s
  {
    match e
    case PointerDown(x, y) => Down(s, w, h, x, y)
    case PointerMove(x, y) => Move(s, w, h, x, y)
    case PointerUp => Up(s)
    case PointerLeave => s.(visual := Normal)
    case PointerEnter => s.(visual := Over)
    case Other => s
  }

  /** No event in the sequence is a pointer press. */
  predicate NoDown(events: seq<Event>) {
    forall i :: 0 <= i < |events| ==> !events[i].PointerDown?
  }

  /** No event in the sequence is a pointer release. */
  predicate NoUp(events: seq<Event>) {
    forall i :: 0 <= i < |events| ==> !events[i].PointerUp?
  }

  /** The events may be handled starting from s: every press finds a
      defined handle. */
  predicate Handleable(s: State, events: seq<Event>) {
    HandleDefined(s) || NoDown(events)
  }

  /** Handling a sequence of events in order. The drag invariant, the
      range settings and a value within range are kept throughout. */
  function Run(s: State, w: nat, h: nat, events: seq<Event>): (r: State)
    requires DragInv(s, w, h) && Handleable(s, events)
    ensures DragInv(r, w, h)
    ensures r.min == s.min && r.max == s.max && r.delta == s.delta && r.vertical == s.vertical
    ensures InRange(s) ==> InRange(r)
    decreases |events|
  {
    if events == [] then s
    else
      assert !HandleDefined(s) ==> !events[0].PointerDown?;
      Run(OnEvent(s, w, h, events[0]), w, h, events[1..])
  }

  /** Handling a + b is handling a and then b. */
  lemma {:induction false} RunConcat(s: State, w: nat, h: nat, a: seq<Event>, b: seq<Event>)
    requires DragInv(s, w, h) && Handleable(s, a + b)
    ensures Handleable(s, a) && Handleable(Run(s, w, h, a), b)
    ensures Run(s, w, h, a + b) == Run(Run(s, w, h, a), w, h, b)
    decreases |a|
  {
    if !HandleDefined(s) {
      assert forall i :: 0 <= i < |a| ==> (a + b)[i] == a[i];
      assert forall i :: 0 <= i < |b| ==> (a + b)[|a| + i] == b[i];
    }
    if a == [] {
      assert a + b == b;
    } else {
      assert (a + b)[0] == a[0];
      assert (a + b)[1..] == a[1..] + b;
      var s1 := OnEvent(s, w, h, a[0]);
      if !HandleDefined(s) {
        assert forall i :: 0 <= i < |a[1..] + b| ==> (a[1..] + b)[i] == (a + b)[i + 1];
      }
      RunConcat(s1, w, h, a[1..], b);
    }
  }

  /** Without a press, a slider that is not dragging never starts to and
      its value never changes: pointer moves alone do not move it. */
  lemma {:induction false} NoDownNoChange(s: State, w: nat, h: nat, events: seq<Event>)
    requires DragInv(s, w, h) && NoDown(events) && !s.dragging
    ensures Handleable(s, events)
    ensures !Run(s, w, h, events).dragging && Run(s, w, h, events).value == s.value
    decreases |events|
  {
    if events != [] {
      var s1 := OnEvent(s, w, h, events[0]);
      assert NoDown(events[1..]) by {
        assert forall i :: 0 <= i < |events[1..]| ==> events[1..][i] == events[i + 1];
      }
      NoDownNoChange(s1, w, h, events[1..]);
    }
  }

  /** Once a drag has started it lasts, and the grab is held, until a
      release. */
  lemma {:induction false} DragLastsUntilUp(s: State, w: nat, h: nat, events: seq<Event>)
    requires DragInv(s, w, h) && Handleable(s, events) && NoUp(events) && s.dragging
    ensures Run(s, w, h, events).dragging && Run(s, w, h, events).grabbed
    decreases |events|
  {
    if events != [] {
      var s1 := OnEvent(s, w, h, events[0]);
      assert NoUp(events[1..]) && Handleable(s1, events[1..]) by {
        assert forall i :: 0 <= i < |events[1..]| ==> events[1..][i] == events[i + 1];
      }
      DragLastsUntilUp(s1, w, h, events[1..]);
    }
  }

  /** A release always ends the drag and frees the grab, whatever came
      before it. */
  lemma ReleaseEndsDrag(s: State, w: nat, h: nat, events: seq<Event>)
    requires DragInv(s, w, h) && Handleable(s, events + [PointerUp])
    ensures var r := Run(s, w, h, events + [PointerUp]); !r.dragging && !r.grabbed && r.visual == Normal
  {
    RunConcat(s, w, h, events, [PointerUp]);
    var m := Run(s, w, h, events);
    assert Run(m, w, h, [PointerUp]) == Run(Up(m), w, h, []);
  }

  // ---------------------------------------------------------------------
  // Worked examples: a 100 x 20 slider over [0, 100]

  /** At value 50 the horizontal handle is the 20 x 20 square at x = 40;
      pressing it and dragging to x = 90 selects 90. */
  lemma HorizontalDragExample()
    ensures var s := Initial().(value := 50);
      DraggerRect(100, 20, 50, 0, 100, false) == Rect(40, 0, 20, 20) &&
      Run(s, 100, 20, [PointerDown(45, 10), PointerMove(90, 10)]).value == 90
  {
    var s := Initial().(value := 50);
    var s1 := Down(s, 100, 20, 45, 10);
    assert s1.dragging;
    assert Run(s, 100, 20, [PointerDown(45, 10), PointerMove(90, 10)])
        == Run(s1, 100, 20, [PointerMove(90, 10)]);
  }

  /** Vertical, at value 0 the handle sits at the bottom (y = 20 - 20 = 0);
      pressing it and dragging to y = 5 selects 1 - 5/20 of the range,
      75. */
  lemma VerticalDragExample()
    ensures var s := Initial().(vertical := true);
      DraggerRect(100, 20, 0, 0, 100, true) == Rect(0, 0, 20, 20) &&
      Run(s, 100, 20, [PointerDown(5, 5), PointerMove(5, 5)]).value == 75
  {
    var s := Initial().(vertical := true);
    var s1 := Down(s, 100, 20, 5, 5);
    assert s1.dragging;
    assert Run(s, 100, 20, [PointerDown(5, 5), PointerMove(5, 5)])
        == Run(s1, 100, 20, [PointerMove(5, 5)]);
  }

  /** A press that misses the handle starts no drag, so the following
      move leaves the value alone. */
  lemma MissedPressNoChange()
    ensures var s := Initial().(value := 50);
      Run(s, 100, 20, [PointerDown(5, 10), PointerMove(90, 10)]) == s
  {
    var s := Initial().(value := 50);
    assert Down(s, 100, 20, 5, 10) == s;
    assert Run(s, 100, 20, [PointerDown(5, 10), PointerMove(90, 10)])
        == Run(s, 100, 20, [PointerMove(90, 10)]);
  }
}
