/** The slider's record (slider_t) as a value, with the typed setters of
    src/base/slider.c. Each setter returns the status it reports together
    with the record it leaves behind. */
module SliderState {
  import opened Numeric

  /** The ret_t codes the slider returns. */
  datatype Status = OK | BadParams | NotFound

  /** The widget state the slider selects through widget_set_state. */
  datatype VisualState = Normal | Over | Pressed

  /** slider_t together with the parts of the enclosing widget it changes:
      its visual state, whether it holds its parent's pointer grab, and
      how many times it asked to be repainted (widget_invalidate). */
  datatype State = State(
    min: U16, max: U16, value: U16, delta: U16,
    vertical: bool, dragging: bool,
    visual: VisualState, grabbed: bool, invalidations: nat)

  /** The outcome of an operation: the status and the resulting record. */
  datatype Step = Step(status: Status, next: State)

  /** The value lies within [min, max]. */
  predicate InRange(s: State) {
    s.min <= s.value <= s.max
  }

  /** The record slider_on_paint_self accepts: a non-empty range holding
      the value. */
  predicate Paintable(s: State) {
    s.min < s.max && InRange(s)
  }

  /** slider_create: a zero-filled record with min 0, max 100, delta 1 and
      value 0, horizontal, not dragging. */
  function Initial(): (s: State)
    ensures Paintable(s)
    ensures s.min == 0 && s.max == 100 && s.value == 0 && s.delta == 1
    ensures !s.vertical && !s.dragging && !s.grabbed && s.visual == Normal && s.invalidations == 0
  {
    State(0, 100, 0, 1, false, false, Normal, false, 0)
  }

  /** slider_set_value: accepted only within [min, max]; an accepted value
      is stored and repainted, a refused one leaves the record untouched. */
  function SetValue(s: State, v: U16): (r: Step)
    ensures r.status == OK <==> s.min <= v <= s.max
    ensures r.status != OK ==> r.status == BadParams && r.next == s
    ensures r.status == OK ==> r.next.value == v && InRange(r.next)
    ensures r.status == OK ==> r.next.invalidations == s.invalidations + 1
    ensures r.next.(value := s.value, invalidations := s.invalidations) == s
  {
    if s.min <= v <= s.max then Step(OK, s.(value := v, invalidations := s.invalidations + 1))
    else Step(BadParams, s)
  }

  /** slider_set_min: always accepted; the value is not re-clamped. */
  function SetMin(s: State, min: U16): (r: Step)
    ensures r.status == OK && r.next.min == min
    ensures r.next.(min := s.min) == s
  {
    Step(OK, s.(min := min))
  }

  /** slider_set_max: always accepted; the value is not re-clamped. */
  function SetMax(s: State, max: U16): (r: Step)
    ensures r.status == OK && r.next.max == max
    ensures r.next.(max := s.max) == s
  {
    Step(OK, s.(max := max))
  }

  /** slider_set_delta: a zero step is refused. */
  function SetDelta(s: State, delta: U16): (r: Step)
    ensures r.status == OK <==> delta > 0
    ensures r.status != OK ==> r.status == BadParams && r.next == s
    ensures r.status == OK ==> r.next == s.(delta := delta)
  {
    if delta > 0 then Step(OK, s.(delta := delta)) else Step(BadParams, s)
  }

  /** slider_set_vertical: always accepted. */
  function SetVertical(s: State, vertical: bool): (r: Step)
    ensures r.status == OK && r.next.vertical == vertical
    ensures r.next.(vertical := s.vertical) == s
  {
    Step(OK, s.(vertical := vertical))
  }

  /** Setting the same value twice is the same as setting it once, apart
      from the extra repaint request. */
  lemma SetValueIdempotent(s: State, v: U16)
    ensures var r1 := SetValue(s, v); var r2 := SetValue(r1.next, v);
      r2.status == r1.status && r2.next.(invalidations := r1.next.invalidations) == r1.next
  {
  }

  /** Moving min keeps the value in range exactly when the new min does
      not exceed the value; neither setter re-clamps. */
  lemma SetMinKeepsRange(s: State, min: U16)
    requires InRange(s)
    ensures InRange(SetMin(s, min).next) <==> min <= s.value
  {
  }

  lemma SetMaxKeepsRange(s: State, max: U16)
    requires InRange(s)
    ensures InRange(SetMax(s, max).next) <==> s.value <= max
  {
  }
}
