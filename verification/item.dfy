/**
 One row of the editor (`VariableItem`): the input control chosen from the
 type of the field's parsed value, what that control shows for the current
 input value, and the value a change event hands back to the editor.
 */
module Item {
  import opened Text
  import opened Dates
  import opened OrderedMaps
  import opened Values
  import opened Coercion
  import opened Editor

  /** The `type` of the input control. */
  datatype InputKind = Checkbox | DateTimeLocal | NumberInput | TextInput

  /** `getInputType`: decided by the parsed value alone, booleans first. */
  function InputType(v: Value): (k: InputKind)
    ensures k == Checkbox <==> v.Bool?
    ensures k == DateTimeLocal <==> v.Date?
    ensures k == NumberInput <==> v.Num?
    ensures k == TextInput <==> !(v.Bool? || v.Date? || v.Num?)
  {
    if v.Bool? then Checkbox
    else if v.Date? then DateTimeLocal
    else if v.Num? then NumberInput
    else TextInput
  }

  /** `getItemTypeClass`: the row's CSS modifier. */
  function ItemTypeClass(v: Value): (c: string)
    ensures StartsWith(c, "variable-item--")
  {
    if v.Bool? then "variable-item--checkbox"
    else if v.Date? then "variable-item--date"
    else if v.Num? then "variable-item--number"
    else "variable-item--text"
  }

  /** The modifier each kind of control is styled with. */
  function KindName(k: InputKind): string
  {
    match k
    case Checkbox => "checkbox"
    case DateTimeLocal => "date"
    case NumberInput => "number"
    case TextInput => "text"
  }

  /** The row class and the control type make the same four-way choice:
      the class names the control's kind, and two rows share a class exactly
      when they share a control type. */
  lemma TypeClassFollowsInputType(v: Value, w: Value)
    ensures ItemTypeClass(v) == "variable-item--" + KindName(InputType(v))
    ensures ItemTypeClass(v) == ItemTypeClass(w) <==> InputType(v) == InputType(w)
  {
    var p := "variable-item--";
    var a, b := KindName(InputType(v)), KindName(InputType(w));
    if ItemTypeClass(v) == ItemTypeClass(w) {
      assert (p + a)[|p|] == a[0] && (p + b)[|p|] == b[0];
    }
  }

  /** What the row renders as its control. */
  datatype Control = CheckboxControl(checked: bool) | InputControl(kind: InputKind, shown: string)

  /** A boolean field renders a checkbox ticked by `Boolean(currentValue)`;
      any other field an input of its type showing `getDisplayValue()`. */
  function RenderControl(field: Value, current: Value): (c: Control)
    ensures c.CheckboxControl? <==> field.Bool?
    ensures c.CheckboxControl? ==> (c.checked <==> Truthy(current))
    ensures c.InputControl? ==> c.kind == InputType(field) && c.shown == FormatValueForInput(field, current)
  {
    if field.Bool? then CheckboxControl(Truthy(current))
    else InputControl(InputType(field), FormatValueForInput(field, current))
  }

  /** The value `onInputChange` receives: the checkbox reports its new
      `checked` state, every other control its text, even a number input. */
  function ChangedValue(field: Value, checked: bool, text: string): (v: Value)
    ensures field.Bool? ==> v == Bool(checked)
    ensures !field.Bool? ==> v == Str(text)
  {
    if field.Bool? then Bool(checked) else Str(text)
  }

  /** A checkbox showing a boolean input is ticked exactly when the input is
      true, so a click hands the editor the negation. */
  lemma CheckboxShowsInput(field: Value, b: bool)
    requires field.Bool?
    ensures RenderControl(field, Bool(b)) == CheckboxControl(b)
    ensures ChangedValue(field, !RenderControl(field, Bool(b)).checked, "") == Bool(!b)
  {
  }

  /** The decimal text of an integer never looks like a date. */
  lemma IntTextIsNotDate(n: int)
    ensures !IsDatePrefix(IntToString(n))
  {
    var s := IntToString(n);
    if |s| >= 16 {
      if n < 0 {
        assert s[1..][3] == s[4];
      }
      assert IsDigit(s[4]);
    }
  }

  /** Text typed into a non-date control normalizes as the text itself. */
  lemma DisplayedTextNormalizes(field: Value, current: Value)
    requires !field.Bool? && !field.Date?
    requires current.Num? || current.Str?
    ensures Normalize(Str(FormatValueForInput(field, current))) == Normalize(current)
  {
    if current.Num? {
      IntTextIsNotDate(current.n);
    }
  }

  /** A date control showing a date, or a canonical date text, shows a text
      that normalizes as the input value. */
  lemma DisplayedDateNormalizes(field: Value, current: Value)
    requires field.Date?
    requires (current.Date? && InRange(current.dt) && 1000 <= current.dt.year <= 9999)
             || (current.Str? && IsCanonicalText(current.s))
    ensures Normalize(Str(FormatValueForInput(field, current))) == Normalize(current)
  {
    if current.Date? {
      RenderShape(current.dt);
      assert IsDatePrefix(Render(current.dt));
    } else {
      RenderParse(current.s);
      assert current.s != "";
      var d := PrefixFields(current.s);
      assert FormatValueForInput(field, current) == Render(d);
      RenderShape19(current.s);
    }
  }

  /** The rendering of a canonical date text is itself a 19-character date
      text. */
  lemma RenderShape19(s: string)
    requires IsCanonicalText(s)
    ensures IsDatePrefix(Render(PrefixFields(s))) && |Render(PrefixFields(s))| == 19
  {
    var d := PrefixFields(s);
    FourDigitsValue(s[0..4]);
    assert 1000 <= d.year <= 9999;
    RenderShape(d);
  }

  /** Typing back exactly what a text, number or date control shows leaves
      the row's change marker as it was. */
  lemma RetypingDisplayKeepsMarker(e: State, k: string, text: string)
    requires Get(e.variables, k).Some?
    requires !FieldValue(e, k).Bool?
    requires text == FormatValueForInput(FieldValue(e, k), Lookup(e.working, k))
    requires var c := Lookup(e.working, k);
             if FieldValue(e, k).Date? then
               (c.Date? && InRange(c.dt) && 1000 <= c.dt.year <= 9999) || (c.Str? && IsCanonicalText(c.s))
             else c.Num? || c.Str?
    ensures Changed(Edit(e, k, ChangedValue(FieldValue(e, k), false, text)), k) <==> Changed(e, k)
  {
    var field := FieldValue(e, k);
    if field.Date? {
      DisplayedDateNormalizes(field, Lookup(e.working, k));
    } else {
      DisplayedTextNormalizes(field, Lookup(e.working, k));
    }
  }

  /** Clicking the checkbox of a boolean field whose input and baseline are
      booleans flips its change marker. */
  lemma ToggleFlipsMarker(e: State, k: string)
    requires FieldValue(e, k).Bool? && Lookup(e.working, k).Bool? && Baseline(e, k).Bool?
    ensures var checked := RenderControl(FieldValue(e, k), Lookup(e.working, k)).checked;
            Changed(Edit(e, k, ChangedValue(FieldValue(e, k), !checked, "")), k) <==> !Changed(e, k)
  {
  }
}
