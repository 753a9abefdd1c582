/** The generic property interface of the slider (slider_get_prop and
    slider_set_prop in src/base/slider.c): properties are addressed by
    name and carried in a value_t. */
module Properties {
  import opened Numeric
  import opened SliderState

  datatype Option<T> = None | Some(value: T)

  /** The two kinds of value_t the slider reads and writes. */
  datatype PropValue = IntValue(i: int) | BoolValue(b: bool)

  /** What a property read reports, and what it wrote into the caller's
      value_t (None when it left it untouched). */
  datatype PropRead = PropRead(status: Status, out: Option<PropValue>)

  /** The property names the slider knows. */
  predicate Known(name: string) {
    name == "value" || name == "vertical" || name == "min" || name == "max" || name == "delta"
  }

  /** value_int: an int as itself, a boolean as 0 or 1. */
  function AsInt(v: PropValue): int {
    match v
    case IntValue(i) => i
    case BoolValue(b) => if b then 1 else 0
  }

  /** value_bool: an int is true when non-zero. */
  function AsBool(v: PropValue): bool {
    match v
    case IntValue(i) => i != 0
    case BoolValue(b) => b
  }

  /** The value_t that stands for a known property of the record. */
  function FieldValue(s: State, name: string): PropValue
    requires Known(name)
  {
    match name
    case "value" => IntValue(s.value)
    case "vertical" => BoolValue(s.vertical)
    case "min" => IntValue(s.min)
    case "max" => IntValue(s.max)
    case _ => IntValue(s.delta)
  }

  /** slider_get_prop as written: "min" and "max" store the field into
      the value_t and then fall through to RET_NOT_FOUND. */
  function GetProp(s: State, name: string): (r: PropRead)
    ensures r.status == OK <==> name == "value" || name == "vertical" || name == "delta"
    ensures r.status != OK ==> r.status == NotFound
    ensures Known(name) ==> r.out == Some(FieldValue(s, name))
    ensures !Known(name) ==> r.out == None
  {
    if name == "value" then PropRead(OK, Some(IntValue(s.value)))
    else if name == "vertical" then PropRead(OK, Some(BoolValue(s.vertical)))
    else if name == "min" then PropRead(NotFound, Some(IntValue(s.min)))
    else if name == "max" then PropRead(NotFound, Some(IntValue(s.max)))
    else if name == "delta" then PropRead(OK, Some(IntValue(s.delta)))
    else PropRead(NotFound, None)
  }

  /** slider_get_prop as its callers expect it: every known property is
      found. */
  function GetPropIntended(s: State, name: string): (r: PropRead)
    ensures r.status == OK <==> Known(name)
    ensures r.status != OK ==> r.status == NotFound && r.out == None
    ensures Known(name) ==> r.out == Some(FieldValue(s, name))
  {
    if Known(name) then PropRead(OK, Some(FieldValue(s, name)))
    else PropRead(NotFound, None)
  }

  /** slider_set_prop: dispatches on the name to the typed setter; the
      setters take uint16_t, so an int is reduced modulo 2^16. */
  function SetProp(s: State, name: string, v: PropValue): (r: Step)
    ensures !Known(name) ==> r == Step(NotFound, s)
    ensures name == "value" ==> r == SetValue(s, Wrap16(AsInt(v)))
    ensures name == "vertical" ==> r == SetVertical(s, AsBool(v))
    ensures name == "min" ==> r == SetMin(s, Wrap16(AsInt(v)))
    ensures name == "max" ==> r == SetMax(s, Wrap16(AsInt(v)))
    ensures name == "delta" ==> r == SetDelta(s, Wrap16(AsInt(v)))
  {
    if name == "value" then SetValue(s, Wrap16(AsInt(v)))
    else if name == "vertical" then SetVertical(s, AsBool(v))
    else if name == "min" then SetMin(s, Wrap16(AsInt(v)))
    else if name == "max" then SetMax(s, Wrap16(AsInt(v)))
    else if name == "delta" then SetDelta(s, Wrap16(AsInt(v)))
    else Step(NotFound, s)
  }

  /** The value a successful write leaves in the named property. */
  function Stored(name: string, v: PropValue): PropValue {
    if name == "vertical" then BoolValue(AsBool(v)) else IntValue(Wrap16(AsInt(v)))
  }

  /** A successful write of a known property reads back (through the
      intended reader) as the value written, reduced to the field's type;
      a refused write changes nothing that can be read. */
  lemma SetThenGet(s: State, name: string, v: PropValue)
    requires Known(name)
    ensures var r := SetProp(s, name, v);
      (r.status == OK ==> GetPropIntended(r.next, name) == PropRead(OK, Some(Stored(name, v)))) &&
      (r.status != OK ==> GetPropIntended(r.next, name) == GetPropIntended(s, name))
  {
    var r := SetProp(s, name, v);
    if name == "value" {
      assert r == SetValue(s, Wrap16(AsInt(v)));
    } else if name == "vertical" {
      assert r == SetVertical(s, AsBool(v));
    } else if name == "min" {
      assert r == SetMin(s, Wrap16(AsInt(v)));
    } else if name == "max" {
      assert r == SetMax(s, Wrap16(AsInt(v)));
    } else {
      assert r == SetDelta(s, Wrap16(AsInt(v)));
    }
  }

  /** Writing a property leaves every other property as it was. */
  lemma SetLeavesOthers(s: State, name: string, other: string, v: PropValue)
    requires Known(name) && Known(other) && name != other
    ensures FieldValue(SetProp(s, name, v).next, other) == FieldValue(s, other)
  {
  }

  /** The as-written reader differs from the intended one only in the
      status it reports for "min" and "max": the value_t is filled in, yet
      the caller is told the property does not exist. */
  lemma GetMinMaxNotFound(s: State)
    ensures GetProp(s, "min") == PropRead(NotFound, Some(IntValue(s.min)))
    ensures GetProp(s, "max") == PropRead(NotFound, Some(IntValue(s.max)))
    ensures GetPropIntended(s, "min") == PropRead(OK, Some(IntValue(s.min)))
    ensures GetPropIntended(s, "max") == PropRead(OK, Some(IntValue(s.max)))
    ensures forall name :: name != "min" && name != "max" ==> GetProp(s, name) == GetPropIntended(s, name)
  {
  }
}
