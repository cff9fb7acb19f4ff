/** The form's fields and what setField does to one of them.

    The PDF library's field objects are modelled by a closed variant, one case per
    class setField tells apart by its constructor name (PDFTextField, PDFDropdown,
    PDFRadioGroup, PDFCheckBox) and Other for every remaining class (buttons,
    signatures, option lists). */
module Fields {

  import opened Outcomes
  import opened Json
  import opened CheckboxTruth

  datatype Field =
    | Text(text: string)
    | Dropdown(options: seq<string>, selected: seq<string>)
    | Radio(options: seq<string>, choice: Option<string>)
    | Checkbox(checked: bool)
    | Other

  /** What a text field is given: the empty string for null, String(value) otherwise. */
  function TextOf(v: JsonValue): (r: string)
    requires Stringable(v)
    ensures v.JNull? ==> r == ""
    ensures !v.JNull? ==> r == ToStr(v)
    ensures v.JString? ==> r == v.s
    ensures v.JNumber? ==> ParseDecimal(r) == Some(v.n as int)
  {
    if v.JNull? then "" else ToStr(v)
  }

  /** g is f after a value was set: same kind, a radio group's options untouched,
      a dropdown's options kept as a prefix (new ones are only ever appended). */
  predicate Extends(f: Field, g: Field) {
    match f
    case Text(_) => g.Text?
    case Dropdown(o, _) => g.Dropdown? && o <= g.options
    case Radio(o, _) => g.Radio? && g.options == o
    case Checkbox(_) => g.Checkbox?
    case Other => g == Other
  }

  /** f and g are the same kind of field with the same options. */
  predicate SameShape(f: Field, g: Field) {
    Extends(f, g) && ((f.Dropdown? || f.Radio?) ==> g.options == f.options)
  }

  /** Field g holds value v: the text, the single selected option, the chosen radio
      button or the check state is the one v sets. */
  predicate Shows(g: Field, v: JsonValue) {
    match g
    case Text(t) => Stringable(v) && t == TextOf(v)
    case Dropdown(o, sel) => Stringable(v) && sel == [ToStr(v)] && ToStr(v) in o
    case Radio(o, c) => Stringable(v) && c == Some(ToStr(v)) && ToStr(v) in o
    case Checkbox(b) => b == IsChecked(v)
    case Other => true
  }

  /** The field takes v without throwing and without growing: a text field needs a value
      with a string form, a dropdown or radio group one it already lists. */
  predicate Accepts(f: Field, v: JsonValue) {
    && (f.Text? ==> Stringable(v))
    && ((f.Dropdown? || f.Radio?) ==> Stringable(v) && ToStr(v) in f.options)
  }

  /** Setting v on f throws: String(value) throws on a text field, a dropdown or a radio
      group, or a radio group does not list it. */
  predicate Throws(f: Field, v: JsonValue) {
    ((f.Text? || f.Dropdown?) && !Stringable(v)) || (f.Radio? && !Accepts(f, v))
  }

  /** The per-kind branch of setField on an existing field. String(value) throws on a
      value with no string form before any mutator runs; in the dropdown branch the catch
      evaluates it again and rethrows. A dropdown first tries to select the value and,
      when that throws because the value is not an option, adds it and selects it; a
      radio group's select throws on a value it does not list; Other fields are left
      alone. None stands for a throw. */
  function Apply(f: Field, v: JsonValue): (r: Option<Field>)
    ensures r.None? <==> Throws(f, v)
    ensures r.Some? ==> Extends(f, r.value) && Shows(r.value, v)
    ensures r.Some? && f.Dropdown? ==>
      |r.value.options| == if Accepts(f, v) then |f.options| else |f.options| + 1
  {
    match f
    case Text(_) => if Stringable(v) then Some(Text(TextOf(v))) else None
    case Dropdown(opts, _) =>
      if !Stringable(v) then None
      else
        var s := ToStr(v);
        if s in opts then Some(Dropdown(opts, [s]))
        else Some(Dropdown(opts + [s], [s]))
    case Radio(opts, _) =>
      if !Stringable(v) then None
      else
        var s := ToStr(v);
        if s in opts then Some(Radio(opts, Some(s))) else None
    case Checkbox(_) => Some(Checkbox(IsChecked(v)))
    case Other => Some(Other)
  }

  /** Two fields of the same shape that hold the same value are equal: the value part of
      a field is all that setting a value determines. */
  lemma ShowsDetermines(g: Field, h: Field, v: JsonValue)
    requires SameShape(g, h) && Shows(g, v) && Shows(h, v)
    ensures g == h
  {
  }

  /** Setting a value the field already accepts leaves its shape as it was. */
  lemma ApplyAccepted(f: Field, v: JsonValue)
    requires Accepts(f, v)
    ensures Apply(f, v).Some? && SameShape(f, Apply(f, v).value)
  {
  }

  // ---------------------------------------------------------------------------
  // The table of fields, and one call of setField

  /** setField's return value and the table after the call. */
  datatype Step = Step(ok: bool, fields: map<string, Field>)

  /** The name refers to a field of a kind setField handles. */
  predicate Handles(fields: map<string, Field>, name: string) {
    name in fields && !fields[name].Other?
  }

  /** setField(name, value) would throw. */
  predicate Rejects(fields: map<string, Field>, name: string, v: JsonValue) {
    name in fields && Throws(fields[name], v)
  }

  /** The error setField(name, value) throws: a TypeError when the value has no string
      form, and otherwise the radio group's refusal of String(value). */
  function ErrorFor(name: string, v: JsonValue): Error {
    if Stringable(v) then SelectionError(name, ToStr(v)) else ConversionError(name)
  }

  /** setField(name, value): false and no change for a missing field or an unhandled
      kind, true after the per-kind effect, an error when the value throws on the field:
      String(value) fails, or a radio group does not list it. */
  function SetField(fields: map<string, Field>, name: string, v: JsonValue): (r: Result<Step>)
    ensures r.Err? <==> Rejects(fields, name, v)
    ensures r.Err? ==> r.error == ErrorFor(name, v)
    ensures r.Ok? ==> (r.value.ok <==> Handles(fields, name))
    ensures r.Ok? && !r.value.ok ==> r.value.fields == fields
    ensures r.Ok? ==> r.value.fields.Keys == fields.Keys
    ensures r.Ok? ==> forall n :: n in fields && n != name ==> r.value.fields[n] == fields[n]
    ensures r.Ok? && name in fields ==>
      Extends(fields[name], r.value.fields[name]) && Shows(r.value.fields[name], v)
    ensures r.Ok? && Handles(fields, name) ==> Apply(fields[name], v) == Some(r.value.fields[name])
  {
    if name !in fields then Ok(Step(false, fields))
    else if fields[name].Other? then Ok(Step(false, fields))
    else match Apply(fields[name], v)
      case None => Err(ErrorFor(name, v))
      case Some(g) => Ok(Step(true, fields[name := g]))
  }

  // ---------------------------------------------------------------------------
  // Several values set on one field, in order

  /** The field after each value of vs was set on it in turn; None once a value throws. */
  function ApplyAll(f: Field, vs: seq<JsonValue>): Option<Field>
    decreases |vs|
  {
    if vs == [] then Some(f)
    else match ApplyAll(f, vs[..|vs| - 1])
      case None => None
      case Some(g) => Apply(g, vs[|vs| - 1])
  }

  /** Setting one more value: the run so far, then that value. */
  lemma ApplyAllSnoc(f: Field, vs: seq<JsonValue>, v: JsonValue)
    ensures ApplyAll(f, vs + [v]) ==
      match ApplyAll(f, vs)
      case None => None
      case Some(g) => Apply(g, v)
  {
    assert (vs + [v])[..|vs|] == vs;
  }

  /** Setting values one after the other throws exactly when one of them throws on the
      field as it was: only kinds and radio options decide, and neither changes. */
  lemma {:induction false} ApplyAllFails(f: Field, vs: seq<JsonValue>)
    ensures ApplyAll(f, vs).None? <==> exists i :: 0 <= i < |vs| && Throws(f, vs[i])
    decreases |vs|
  {
    if vs != [] {
      var init := vs[..|vs| - 1];
      var last := vs[|vs| - 1];
      ApplyAllFails(f, init);
      assert forall i :: 0 <= i < |init| ==> init[i] == vs[i];
      if ApplyAll(f, init).Some? {
        ApplyAllResult(f, init);
        ExtendsKeepsThrows(f, ApplyAll(f, init).value, last);
      }
    }
  }

  /** Whether a value throws depends only on what Extends keeps. */
  lemma ExtendsKeepsThrows(f: Field, g: Field, v: JsonValue)
    requires Extends(f, g)
    ensures Throws(g, v) == Throws(f, v)
  {
  }

  /** After a run of values the field is an extension of the original, holds the last
      value, and accepts every value of the run. */
  lemma {:induction false} ApplyAllResult(f: Field, vs: seq<JsonValue>)
    requires ApplyAll(f, vs).Some?
    ensures Extends(f, ApplyAll(f, vs).value)
    ensures vs != [] ==> Shows(ApplyAll(f, vs).value, vs[|vs| - 1])
    ensures forall i :: 0 <= i < |vs| ==> Accepts(ApplyAll(f, vs).value, vs[i])
    decreases |vs|
  {
    if vs != [] {
      var init := vs[..|vs| - 1];
      ApplyAllResult(f, init);
      var g := ApplyAll(f, init).value;
      var h := ApplyAll(f, vs).value;
      forall i | 0 <= i < |vs| ensures Accepts(h, vs[i]) {
        if i < |vs| - 1 {
          assert Accepts(g, init[i]);
        }
      }
    }
  }

  /** Values the field already accepts leave its shape as it was. */
  lemma {:induction false} ApplyAllAccepted(f: Field, vs: seq<JsonValue>)
    requires forall i :: 0 <= i < |vs| ==> Accepts(f, vs[i])
    ensures ApplyAll(f, vs).Some? && SameShape(f, ApplyAll(f, vs).value)
    decreases |vs|
  {
    if vs != [] {
      var init := vs[..|vs| - 1];
      ApplyAllAccepted(f, init);
      ApplyAccepted(ApplyAll(f, init).value, vs[|vs| - 1]);
    }
  }

  /** Setting the same values a second time changes nothing. */
  lemma ApplyAllIdempotent(f: Field, vs: seq<JsonValue>)
    requires ApplyAll(f, vs).Some?
    ensures ApplyAll(ApplyAll(f, vs).value, vs) == ApplyAll(f, vs)
  {
    var g := ApplyAll(f, vs).value;
    ApplyAllResult(f, vs);
    ApplyAllAccepted(g, vs);
    if vs != [] {
      ApplyAllResult(g, vs);
      ShowsDetermines(g, ApplyAll(g, vs).value, vs[|vs| - 1]);
    }
  }
}
