/** The form object fillAcroform works on, mutated in place: its table of fields, the
    field mutators setField calls (setText, select, addOptions, check, uncheck), setField
    itself and the loop that applies the whole record and counts the applied keys. */
module AcroForm {

  import opened Outcomes
  import opened Json
  import opened KeyNames
  import opened CheckboxTruth
  import opened Fields
  import opened Filling

  class Form {
    var fields: map<string, Field>

    constructor (initial: map<string, Field>)
      ensures fields == initial
    {
      fields := initial;
    }

    /** setText on a text field. */
    method SetText(name: string, text: string)
      requires name in fields && fields[name].Text?
      modifies this
      ensures fields == old(fields)[name := Text(text)]
    {
      fields := fields[name := Text(text)];
    }

    /** select on a dropdown: throws, changing nothing, when the option is not listed. */
    method SelectOption(name: string, option: string) returns (thrown: bool)
      requires name in fields && fields[name].Dropdown?
      modifies this
      ensures thrown <==> option !in old(fields)[name].options
      ensures fields == if thrown then old(fields)
                        else old(fields)[name := Dropdown(old(fields)[name].options, [option])]
    {
      thrown := option !in fields[name].options;
      if !thrown {
        fields := fields[name := Dropdown(fields[name].options, [option])];
      }
    }

    /** addOptions on a dropdown: the option is appended to its list. */
    method AddOption(name: string, option: string)
      requires name in fields && fields[name].Dropdown?
      modifies this
      ensures fields == old(fields)[name := Dropdown(old(fields)[name].options + [option],
                                                     old(fields)[name].selected)]
    {
      fields := fields[name := Dropdown(fields[name].options + [option], fields[name].selected)];
    }

    /** select on a radio group: throws, changing nothing, when the option is not listed. */
    method SelectRadio(name: string, option: string) returns (thrown: bool)
      requires name in fields && fields[name].Radio?
      modifies this
      ensures thrown <==> option !in old(fields)[name].options
      ensures fields == if thrown then old(fields)
                        else old(fields)[name := Radio(old(fields)[name].options, Some(option))]
    {
      thrown := option !in fields[name].options;
      if !thrown {
        fields := fields[name := Radio(fields[name].options, Some(option))];
      }
    }

    /** check or uncheck on a checkbox. */
    method SetChecked(name: string, checked: bool)
      requires name in fields && fields[name].Checkbox?
      modifies this
      ensures fields == old(fields)[name := Checkbox(checked)]
    {
      fields := fields[name := Checkbox(checked)];
    }

    /** setField(name, value): Ok(false) for a missing field or an unhandled kind,
        Ok(true) once the value is set, Err when String(value) or a radio group's select
        throws. */
    method SetField(name: string, value: JsonValue) returns (res: Result<bool>)
      modifies this
      ensures match Fields.SetField(old(fields), name, value)
              case Err(e) => res == Err(e) && fields == old(fields)
              case Ok(s) => res == Ok(s.ok) && fields == s.fields
    {
      if name !in fields {
        return Ok(false);
      }
      match fields[name] {
      case Text(_) =>
        if !Stringable(value) {
          return Err(ConversionError(name));
        }
        SetText(name, TextOf(value));
      case Dropdown(_, _) =>
        // String(value) throws inside the try and again inside the catch.
        if !Stringable(value) {
          return Err(ConversionError(name));
        }
        var option := ToStr(value);
        var thrown := SelectOption(name, option);
        if thrown {
          AddOption(name, option);
          thrown := SelectOption(name, option);
        }
      case Radio(_, _) =>
        if !Stringable(value) {
          return Err(ConversionError(name));
        }
        var thrown := SelectRadio(name, ToStr(value));
        if thrown {
          return Err(SelectionError(name, ToStr(value)));
        }
      case Checkbox(_) =>
        SetChecked(name, IsChecked(value));
      case Other =>
        return Ok(false);
      }
      res := Ok(true);
    }

    /** The apply loop: each key of the record in order, normalized, handed to setField;
        appliedCount counts the calls that return true. A thrown error ends the loop,
        leaving the fields as the keys before the failing one set them. */
    method FillFields(rec: seq<Entry>) returns (res: Result<nat>, ghost failedAt: nat)
      modifies this
      ensures match Fill(old(fields), rec)
              case Ok(acc) => res == Ok(acc.count) && fields == acc.fields
              case Err(e) =>
                && res == Err(e) && failedAt < |rec|
                && Fill(old(fields), rec[..failedAt]).Ok?
                && fields == Fill(old(fields), rec[..failedAt]).value.fields
                && Fill(old(fields), rec[..failedAt + 1]) == Err(e)
    {
      var appliedCount: nat := 0;
      var i := 0;
      failedAt := 0;
      while i < |rec|
        invariant 0 <= i <= |rec|
        invariant Fill(old(fields), rec[..i]) == Ok(Filled(appliedCount, fields))
      {
        ghost var before := fields;
        var key := NormalizeKey(rec[i].key);
        var ok := SetField(key, rec[i].value);
        FillPrefixStep(old(fields), rec, i, Filled(appliedCount, before));
        if ok.Err? {
          failedAt := i;
          FillFailsAfter(old(fields), rec, i + 1);
          assert Fill(old(fields), rec[..failedAt]) == Ok(Filled(appliedCount, fields));
          return Err(ok.error), failedAt;
        }
        if ok.value {
          appliedCount := appliedCount + 1;
        }
        i := i + 1;
      }
      assert rec[..i] == rec;
      res := Ok(appliedCount);
    }
  }
}
