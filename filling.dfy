/** The apply loop of fillAcroform: every key of the record, in Object.keys order, is
    normalized and handed to setField with its value; each call that returns true adds
    one to appliedCount, and an error thrown by setField ends the whole run. */
module Filling {

  import opened Outcomes
  import opened Json
  import opened KeyNames
  import opened CheckboxTruth
  import opened Fields

  /** One property of the JSON record: the raw key and its value. */
  datatype Entry = Entry(key: string, value: JsonValue)

  /** appliedCount and the table of fields after a prefix of the record. */
  datatype Filled = Filled(count: nat, fields: map<string, Field>)

  /** The field an entry is aimed at: its key, or the name the key wraps in a tag. */
  function Target(e: Entry): (r: string)
    ensures r == e.key || (IsName(r) && e.key == Wrap(r))
  {
    NormalizeKey(e.key)
  }

  /** One pass of the loop body: it throws exactly when setField rejects the key, and
      otherwise adds one to appliedCount exactly when the key names a handled field. */
  function FillStep(acc: Filled, e: Entry): (r: Result<Filled>)
    ensures r.Err? <==> Rejects(acc.fields, Target(e), e.value)
    ensures r.Err? ==> r.error == ErrorFor(Target(e), e.value)
    ensures r.Ok? ==> r.value.count == acc.count + (if Handles(acc.fields, Target(e)) then 1 else 0)
    ensures r.Ok? ==> r.value.fields.Keys == acc.fields.Keys
  {
    match SetField(acc.fields, Target(e), e.value)
    case Err(err) => Err(err)
    case Ok(s) => Ok(Filled(if s.ok then acc.count + 1 else acc.count, s.fields))
  }

  /** The loop over the whole record, starting from appliedCount = 0. */
  function Fill(fields: map<string, Field>, rec: seq<Entry>): (r: Result<Filled>)
    ensures r.Ok? ==> r.value.fields.Keys == fields.Keys
    decreases |rec|
  {
    if rec == [] then Ok(Filled(0, fields))
    else match Fill(fields, rec[..|rec| - 1])
      case Err(err) => Err(err)
      case Ok(acc) => FillStep(acc, rec[|rec| - 1])
  }

  /** Number of entries aimed at a field of a kind setField handles. */
  function CountHandled(fields: map<string, Field>, rec: seq<Entry>): nat
    decreases |rec|
  {
    if rec == [] then 0
    else CountHandled(fields, rec[..|rec| - 1]) + (if Handles(fields, Target(rec[|rec| - 1])) then 1 else 0)
  }

  /** The values of the entries aimed at field n, in record order. */
  function ValuesFor(rec: seq<Entry>, n: string): seq<JsonValue>
    decreases |rec|
  {
    if rec == [] then []
    else ValuesFor(rec[..|rec| - 1], n) + (if Target(rec[|rec| - 1]) == n then [rec[|rec| - 1].value] else [])
  }

  /** Table g is table f after values were set: same names, every field extended. */
  predicate ExtendsAll(f: map<string, Field>, g: map<string, Field>) {
    f.Keys == g.Keys && forall n :: n in f ==> Extends(f[n], g[n])
  }

  // ---------------------------------------------------------------------------
  // Lemmas

  /** Filling never adds or removes a field and never changes a field's kind or a
      radio group's options; dropdowns only gain options. */
  lemma {:induction false} FillExtends(fields: map<string, Field>, rec: seq<Entry>)
    requires Fill(fields, rec).Ok?
    ensures ExtendsAll(fields, Fill(fields, rec).value.fields)
    decreases |rec|
  {
    if rec != [] {
      FillExtends(fields, rec[..|rec| - 1]);
    }
  }

  /** Whether setField handles or rejects an entry depends only on what ExtendsAll keeps. */
  lemma ExtendsAllKeepsVerdicts(f: map<string, Field>, g: map<string, Field>, e: Entry)
    requires ExtendsAll(f, g)
    ensures Handles(g, Target(e)) == Handles(f, Target(e))
    ensures Rejects(g, Target(e), e.value) == Rejects(f, Target(e), e.value)
  {
  }

  /** appliedCount is the number of keys whose normalized name is a text, dropdown,
      radio or checkbox field, so never more than the number of keys. */
  lemma {:induction false} FillCount(fields: map<string, Field>, rec: seq<Entry>)
    requires Fill(fields, rec).Ok?
    ensures Fill(fields, rec).value.count == CountHandled(fields, rec) <= |rec|
    decreases |rec|
  {
    if rec != [] {
      var init := rec[..|rec| - 1];
      FillCount(fields, init);
      FillExtends(fields, init);
      ExtendsAllKeepsVerdicts(fields, Fill(fields, init).value.fields, rec[|rec| - 1]);
    }
  }

  /** The key at index i is aimed at a field on which its value throws. */
  predicate RejectedAt(fields: map<string, Field>, rec: seq<Entry>, i: int) {
    0 <= i < |rec| && Rejects(fields, Target(rec[i]), rec[i].value)
  }

  /** The run fails exactly when some key is aimed at a field on which its value
      throws. */
  lemma {:induction false} FillFailsIff(fields: map<string, Field>, rec: seq<Entry>)
    ensures Fill(fields, rec).Err? <==> exists i :: RejectedAt(fields, rec, i)
    decreases |rec|
  {
    if rec != [] {
      var init := rec[..|rec| - 1];
      var last := rec[|rec| - 1];
      FillFailsIff(fields, init);
      FillSnoc(fields, init, last);
      assert init + [last] == rec;
      if Fill(fields, init).Ok? {
        var acc := Fill(fields, init).value;
        FillExtends(fields, init);
        ExtendsAllKeepsVerdicts(fields, acc.fields, last);
      }
      RejectedSnoc(fields, init, last);
    }
  }

  /** A key rejected in the record with one more key is one rejected before, or the new one. */
  lemma RejectedSnoc(fields: map<string, Field>, rec: seq<Entry>, e: Entry)
    ensures (exists i :: RejectedAt(fields, rec + [e], i)) <==>
      (exists i :: RejectedAt(fields, rec, i)) || Rejects(fields, Target(e), e.value)
  {
    if exists i :: RejectedAt(fields, rec, i) {
      var i :| RejectedAt(fields, rec, i);
      assert RejectedAt(fields, rec + [e], i);
    }
    if Rejects(fields, Target(e), e.value) {
      assert RejectedAt(fields, rec + [e], |rec|);
    }
    if exists i :: RejectedAt(fields, rec + [e], i) {
      var i :| RejectedAt(fields, rec + [e], i);
      if i < |rec| {
        assert RejectedAt(fields, rec, i);
      }
    }
  }

  /** The error reported is the one of the first rejected key. */
  lemma {:induction false} FillReportsFirstRejection(fields: map<string, Field>, rec: seq<Entry>)
    requires Fill(fields, rec).Err?
    ensures exists i ::
      && RejectedAt(fields, rec, i)
      && (forall j :: 0 <= j < i ==> !RejectedAt(fields, rec, j))
      && Fill(fields, rec).error == ErrorFor(Target(rec[i]), rec[i].value)
    decreases |rec|
  {
    var init := rec[..|rec| - 1];
    var last := rec[|rec| - 1];
    FillSnoc(fields, init, last);
    assert init + [last] == rec;
    if Fill(fields, init).Err? {
      FillReportsFirstRejection(fields, init);
      var i :| && RejectedAt(fields, init, i)
               && (forall j :: 0 <= j < i ==> !RejectedAt(fields, init, j))
               && Fill(fields, init).error == ErrorFor(Target(init[i]), init[i].value);
      assert forall j :: 0 <= j <= i ==> rec[j] == init[j];
      assert RejectedAt(fields, rec, i);
      assert forall j :: 0 <= j < i ==> !RejectedAt(fields, rec, j);
    } else {
      var acc := Fill(fields, init).value;
      FillFailsIff(fields, init);
      FillExtends(fields, init);
      ExtendsAllKeepsVerdicts(fields, acc.fields, last);
      assert forall j :: 0 <= j < |rec| - 1 ==> rec[j] == init[j];
      assert forall j :: 0 <= j < |rec| - 1 ==> !RejectedAt(fields, rec, j) by {
        forall j | 0 <= j < |rec| - 1 ensures !RejectedAt(fields, rec, j) {
          assert !RejectedAt(fields, init, j);
        }
      }
      assert RejectedAt(fields, rec, |rec| - 1);
    }
  }

  /** Field by field, the fill is the values aimed at that field set on it in record
      order: fields never interact, and a field no key is aimed at stays as it was. */
  lemma {:induction false} FillPerField(fields: map<string, Field>, rec: seq<Entry>, n: string)
    requires Fill(fields, rec).Ok? && n in fields
    ensures ApplyAll(fields[n], ValuesFor(rec, n)) == Some(Fill(fields, rec).value.fields[n])
    decreases |rec|
  {
    if rec != [] {
      var init := rec[..|rec| - 1];
      var last := rec[|rec| - 1];
      FillPerField(fields, init, n);
      var acc := Fill(fields, init).value;
      var s := SetField(acc.fields, Target(last), last.value);
      assert Fill(fields, rec) == FillStep(acc, last);
      assert s.Ok? && Fill(fields, rec).value.fields == s.value.fields;
      SetFieldAt(acc.fields, Target(last), last.value, n);
      var vs := ValuesFor(init, n);
      if Target(last) == n {
        assert ValuesFor(rec, n) == vs + [last.value];
        ApplyAllSnoc(fields[n], vs, last.value);
      } else {
        assert ValuesFor(rec, n) == vs;
      }
    }
  }

  /** What one setField call leaves in field n. */
  lemma SetFieldAt(fields: map<string, Field>, name: string, v: JsonValue, n: string)
    requires SetField(fields, name, v).Ok? && n in fields
    ensures SetField(fields, name, v).value.fields[n] ==
      if n == name then Apply(fields[n], v).value else fields[n]
  {
  }

  /** A key whose normalized name has no field changes neither appliedCount nor any
      field, and raises no error. */
  lemma UnknownKeyIsNoOp(fields: map<string, Field>, rec: seq<Entry>, e: Entry)
    requires Target(e) !in fields
    ensures Fill(fields, rec + [e]) == Fill(fields, rec)
  {
    assert (rec + [e])[..|rec|] == rec;
    if Fill(fields, rec).Ok? {
      FillExtends(fields, rec);
    }
  }

  /** Of the keys aimed at one field, the last one's value is the one the field ends
      up holding: the text, the selected option, the chosen button or the check state. */
  lemma {:induction false} LastKeyWins(fields: map<string, Field>, rec: seq<Entry>, j: nat)
    requires Fill(fields, rec).Ok?
    requires j < |rec| && Target(rec[j]) in fields
    requires forall k :: j < k < |rec| ==> Target(rec[k]) != Target(rec[j])
    ensures Shows(Fill(fields, rec).value.fields[Target(rec[j])], rec[j].value)
    decreases |rec|
  {
    var init := rec[..|rec| - 1];
    FillExtends(fields, init);
    if j < |rec| - 1 {
      assert init[j] == rec[j];
      LastKeyWins(fields, init, j);
    }
  }

  /** Filling the filled form again with the same record reports the same count and
      leaves every field as it is. */
  lemma FillIdempotent(fields: map<string, Field>, rec: seq<Entry>)
    requires Fill(fields, rec).Ok?
    ensures Fill(Fill(fields, rec).value.fields, rec) == Fill(fields, rec)
  {
    var acc := Fill(fields, rec).value;
    var g := acc.fields;
    FillExtends(fields, rec);
    FillFailsIff(fields, rec);
    FillFailsIff(g, rec);
    forall i | 0 <= i < |rec| ensures !RejectedAt(g, rec, i) {
      ExtendsAllKeepsVerdicts(fields, g, rec[i]);
      assert !RejectedAt(fields, rec, i);
    }
    var acc2 := Fill(g, rec).value;
    FillCount(fields, rec);
    FillCount(g, rec);
    CountHandledKept(fields, g, rec);
    FillExtends(g, rec);
    forall n | n in g ensures acc2.fields[n] == g[n] {
      FillPerField(fields, rec, n);
      FillPerField(g, rec, n);
      ApplyAllIdempotent(fields[n], ValuesFor(rec, n));
    }
    assert acc2.fields == g;
  }

  /** The count depends on the table only through what ExtendsAll keeps. */
  lemma {:induction false} CountHandledKept(f: map<string, Field>, g: map<string, Field>, rec: seq<Entry>)
    requires ExtendsAll(f, g)
    ensures CountHandled(g, rec) == CountHandled(f, rec)
    decreases |rec|
  {
    if rec != [] {
      CountHandledKept(f, g, rec[..|rec| - 1]);
      ExtendsAllKeepsVerdicts(f, g, rec[|rec| - 1]);
    }
  }

  /** The loop with one more key: the run so far, then one more pass of the body. */
  lemma FillSnoc(fields: map<string, Field>, rec: seq<Entry>, e: Entry)
    ensures Fill(fields, rec + [e]) ==
      match Fill(fields, rec)
      case Err(err) => Err(err)
      case Ok(acc) => FillStep(acc, e)
  {
    assert (rec + [e])[..|rec|] == rec;
  }

  /** The loop over the first i + 1 keys is the loop over the first i, then key i. */
  lemma FillPrefixStep(fields: map<string, Field>, rec: seq<Entry>, i: nat, acc: Filled)
    requires i < |rec| && Fill(fields, rec[..i]) == Ok(acc)
    ensures Fill(fields, rec[..i + 1]) == FillStep(acc, rec[i])
  {
    FillSnoc(fields, rec[..i], rec[i]);
    assert rec[..i] + [rec[i]] == rec[..i + 1];
  }

  /** Once a key throws, the run is over: no later key changes the outcome. */
  lemma {:induction false} FillFailsAfter(fields: map<string, Field>, rec: seq<Entry>, k: nat)
    requires k <= |rec| && Fill(fields, rec[..k]).Err?
    ensures Fill(fields, rec) == Fill(fields, rec[..k])
    decreases |rec| - k
  {
    if k < |rec| {
      FillSnoc(fields, rec[..k], rec[k]);
      assert rec[..k] + [rec[k]] == rec[..k + 1];
      FillFailsAfter(fields, rec, k + 1);
    } else {
      assert rec[..k] == rec;
    }
  }

  /** A template with a text field NAME, a checkbox SUBSCRIBE and a dropdown PLAN
      offering Basic and Pro, filled with a tag-wrapped NAME, "yes" and an unknown plan:
      three fields applied, and the plan added to the dropdown and selected. */
  lemma ThreeFieldScenario()
    ensures
      var fields := map["NAME" := Text(""), "SUBSCRIBE" := Checkbox(false),
                         "PLAN" := Dropdown(["Basic", "Pro"], [])];
      var rec := [Entry("<tag_NAME_tag>", JString("Ada")), Entry("SUBSCRIBE", JString("yes")),
                  Entry("PLAN", JString("Enterprise"))];
      Fill(fields, rec) == Ok(Filled(3, map["NAME" := Text("Ada"), "SUBSCRIBE" := Checkbox(true),
                                           "PLAN" := Dropdown(["Basic", "Pro", "Enterprise"], ["Enterprise"])]))
  {
    var fields := map["NAME" := Text(""), "SUBSCRIBE" := Checkbox(false),
                      "PLAN" := Dropdown(["Basic", "Pro"], [])];
    var e1, e2, e3 := Entry("<tag_NAME_tag>", JString("Ada")), Entry("SUBSCRIBE", JString("yes")),
                      Entry("PLAN", JString("Enterprise"));
    var f1 := fields["NAME" := Text("Ada")];
    var f2 := f1["SUBSCRIBE" := Checkbox(true)];
    var f3 := f2["PLAN" := Dropdown(["Basic", "Pro", "Enterprise"], ["Enterprise"])];
    ScenarioName(fields);
    ScenarioSubscribe(f1);
    ScenarioPlan(f2);
    FillSnoc(fields, [], e1);
    FillSnoc(fields, [e1], e2);
    FillSnoc(fields, [e1, e2], e3);
    assert [] + [e1] == [e1] && [e1] + [e2] == [e1, e2] && [e1, e2] + [e3] == [e1, e2, e3];
    assert f3 == map["NAME" := Text("Ada"), "SUBSCRIBE" := Checkbox(true),
                     "PLAN" := Dropdown(["Basic", "Pro", "Enterprise"], ["Enterprise"])];
  }

  lemma ScenarioName(fields: map<string, Field>)
    requires "NAME" in fields && fields["NAME"].Text?
    ensures FillStep(Filled(0, fields), Entry("<tag_NAME_tag>", JString("Ada")))
      == Ok(Filled(1, fields["NAME" := Text("Ada")]))
  {
    NormalizeWrapped("NAME");
    assert Wrap("NAME") == "<tag_NAME_tag>";
    assert Apply(fields["NAME"], JString("Ada")) == Some(Text("Ada"));
  }

  lemma ScenarioSubscribe(fields: map<string, Field>)
    requires "SUBSCRIBE" in fields && fields["SUBSCRIBE"].Checkbox?
    ensures FillStep(Filled(1, fields), Entry("SUBSCRIBE", JString("yes")))
      == Ok(Filled(2, fields["SUBSCRIBE" := Checkbox(true)]))
  {
    NameIsNotTagged("SUBSCRIBE");
    assert IsChecked(JString("yes")) by { assert Lower("yes") == "yes"; }
    assert Apply(fields["SUBSCRIBE"], JString("yes")) == Some(Checkbox(true));
  }

  lemma ScenarioPlan(fields: map<string, Field>)
    requires "PLAN" in fields && fields["PLAN"] == Dropdown(["Basic", "Pro"], [])
    ensures FillStep(Filled(2, fields), Entry("PLAN", JString("Enterprise")))
      == Ok(Filled(3, fields["PLAN" := Dropdown(["Basic", "Pro", "Enterprise"], ["Enterprise"])]))
  {
    NameIsNotTagged("PLAN");
    assert "Enterprise" !in ["Basic", "Pro"];
    assert ["Basic", "Pro"] + ["Enterprise"] == ["Basic", "Pro", "Enterprise"];
    assert Apply(fields["PLAN"], JString("Enterprise")) == Some(Dropdown(["Basic", "Pro", "Enterprise"], ["Enterprise"]));
  }

  /** Two spellings of one name are both counted; the later value is kept. */
  lemma TwoSpellingsBothCount()
    ensures
      var fields := map["NAME" := Text("")];
      Fill(fields, [Entry("NAME", JString("first")), Entry("<tag_NAME_tag>", JString("second"))])
        == Ok(Filled(2, map["NAME" := Text("second")]))
  {
    var fields := map["NAME" := Text("")];
    var e1, e2 := Entry("NAME", JString("first")), Entry("<tag_NAME_tag>", JString("second"));
    TwoSpellingsOneField("NAME");
    assert Wrap("NAME") == "<tag_NAME_tag>";
    assert Target(e1) == "NAME" && Target(e2) == "NAME";
    var f1 := fields["NAME" := Text("first")];
    assert Apply(fields["NAME"], e1.value) == Some(Text("first"));
    assert SetField(fields, "NAME", e1.value) == Ok(Step(true, f1));
    assert Apply(f1["NAME"], e2.value) == Some(Text("second"));
    assert SetField(f1, "NAME", e2.value) == Ok(Step(true, f1["NAME" := Text("second")]));
    assert f1["NAME" := Text("second")] == map["NAME" := Text("second")];
    FillSnoc(fields, [], e1);
    FillSnoc(fields, [e1], e2);
    assert [] + [e1] == [e1] && [e1] + [e2] == [e1, e2];
  }

  /** A radio value outside the group's options aborts the run, however many keys were
      applied before it. */
  lemma BadRadioAborts()
    ensures
      var fields := map["NAME" := Text(""), "SIZE" := Radio(["S", "M"], None)];
      Fill(fields, [Entry("NAME", JString("Ada")), Entry("SIZE", JString("XL"))])
        == Err(SelectionError("SIZE", "XL"))
  {
    var fields := map["NAME" := Text(""), "SIZE" := Radio(["S", "M"], None)];
    var e1, e2 := Entry("NAME", JString("Ada")), Entry("SIZE", JString("XL"));
    var f1 := fields["NAME" := Text("Ada")];
    assert FillStep(Filled(0, fields), e1) == Ok(Filled(1, f1)) by {
      NameIsNotTagged("NAME");
      assert Apply(fields["NAME"], e1.value) == Some(Text("Ada"));
    }
    assert FillStep(Filled(1, f1), e2) == Err(SelectionError("SIZE", "XL")) by {
      NameIsNotTagged("SIZE");
      assert "XL" !in ["S", "M"];
    }
    FillSnoc(fields, [], e1);
    FillSnoc(fields, [e1], e2);
    assert [] + [e1] == [e1] && [e1] + [e2] == [e1, e2];
  }

  /** A value with no string form, an object with its own toString member, throws a
      TypeError out of setField on a text field and aborts the run. */
  lemma ObjectValueAborts()
    ensures
      var fields := map["NAME" := Text("")];
      Fill(fields, [Entry("NAME", JObject([("toString", JNumber(1))]))])
        == Err(ConversionError("NAME"))
  {
    var fields := map["NAME" := Text("")];
    var e := Entry("NAME", JObject([("toString", JNumber(1))]));
    NameIsNotTagged("NAME");
    assert [("toString", JNumber(1))][0].0 == "toString";
    assert !Stringable(e.value);
    FillSnoc(fields, [], e);
    assert [] + [e] == [e];
  }
}
