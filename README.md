# PDF form filler: the field-filling step

`app/server.js` fills a PDF AcroForm from a flat JSON record. This project models its
logic in Dafny:

- `normalizeKey`, which turns a tag-wrapped key `<tag_NAME_tag>` into `NAME`;
- the checkbox truth coercion;
- `setField`, which dispatches on the kind of the named field (text, dropdown, radio
  group, checkbox, anything else) and mutates that field;
- the loop of `fillAcroform` that hands every key of the record to `setField` and
  counts the applied ones in `appliedCount`.

The PDF library's form is modelled as a table from field name to a closed variant
(`Fields.Field`: `Text`, `Dropdown`, `Radio`, `Checkbox`, `Other`). This replaces the
dispatch on `field.constructor.name`. Each library mutator (`setText`, `select`,
`addOptions`, `check`/`uncheck`) is a method of the class `AcroForm.Form`, which holds
the table and updates it in place. `Form.SetField` and `Form.FillFields` are proved
against the pure functions `Fields.SetField` and `Filling.Fill`. The lemmas about the
fill are proved about those pure functions.

Files:
- `outcomes.dfy`: `Option`, and `Result` with the two errors the fill can raise.
- `json.dfy`: JSON values and JavaScript's `String(value)` on them.
- `keys.dfy`: `normalizeKey`.
- `checkbox.dfy`: the checkbox truth table.
- `fields.dfy`: fields, the per-kind effect and one `setField` call.
- `filling.dfy`: the apply loop as a fold, and its properties.
- `form.dfy`: the mutable form.

What the code does, as the model states it:
- The record is processed in `Object.keys` order, and the order is observable. When two
  keys normalize to the same name, both are counted and the later value is kept. The
  first key that throws is the one whose error is reported.
- A radio value that is not one of the group's options throws out of `setField`. Nothing
  catches it, so the whole run stops there.
- `String(value)` throws a TypeError on an object with its own `toString` member, and
  on an array holding one. For a text field, dropdown or radio group this also stops the
  run; a checkbox never converts its value.
- `updateFieldAppearances` runs once, before the values are applied (line 61). The model
  makes no claim about appearances.

## Model

| member | source | states |
|---|---|---|
| Json.NatToDecimal | app/server.js:31 | `String(n)` of a natural number is a non-empty run of decimal digits, with no leading zero unless n is 0 |
| Json.IntToDecimal | app/server.js:31 | `String(n)` of an integer starts with a minus sign exactly when n is negative, followed by a non-empty run of digits with no leading zero unless n is 0 |
| Json.DecimalRoundTrip | app/server.js:31 | reading the digits `String(n)` writes gives back n |
| Json.IntToDecimalRoundTrip | app/server.js:31 | `String(n)` of any integer, sign included, reads back as n |
| Json.IntToDecimalInjective | app/server.js:35 | different integers give different strings |
| Json.JoinCommas | app/server.js:31 | joining with commas gives the empty string for no pieces and the piece itself for one; otherwise the result starts with the first piece, a comma follows it, and its length is the pieces' total plus one comma between each two |
| Json.JoinCommasFront | app/server.js:31 | joining two or more pieces gives the first piece, a comma, and the remaining pieces joined; with the one-piece case this fixes the joined string |
| Json.ToStr | app/server.js:31-43 | `String(value)`, defined when the value has a string form: a string is itself, a number reads back as that number, a boolean gives "true" or "false", null gives "null", an object "[object Object]", an empty array "", and a one-element array its element's string, or "" for null |
| Json.ElementStr | app/server.js:31 | an array element's piece of the joined string: "" for null, `String` of the element otherwise |
| Json.ToStrArrayFront | app/server.js:31 | an array of two or more elements gives its first element's piece, a comma, and the string of the remaining elements; with `ToStr`'s one-element case this fixes `String` of every array |
| Json.NumberStrings | app/server.js:35 | two numbers give the same option string exactly when they are equal |
| Json.ToStrExamples | app/server.js:31 | `String(42)` is "42", `String(-7)` is "-7", `String(false)` is "false" |
| Json.ToStrArrayExample | app/server.js:31 | an array joins its elements with commas, a null element giving the empty string: `["a", null, 1]` gives "a,,1" |
| Json.StringableExamples | app/server.js:31-43 | an object with its own `toString` member, and an array holding one, have no string form; an object holding the text "toString" only as a member's value has one |
| KeyNames.NormalizeKey | app/server.js:5-10 | the result is either the key unchanged or a name of `[A-Za-z0-9_]+` whose tag-wrapped spelling is the key |
| KeyNames.NormalizeWrapped | app/server.js:7-9 | `<tag_` + NAME + `_tag>` with NAME a non-empty run of `[A-Za-z0-9_]` normalizes to NAME |
| KeyNames.NormalizeUnwrapped | app/server.js:7-9 | a key that is no tag-wrapped name comes back unchanged |
| KeyNames.NameIsNotTagged | app/server.js:7 | a name of `[A-Za-z0-9_]+` never matches the tag pattern |
| KeyNames.NormalizeIdempotent | app/server.js:5-10 | normalizing twice gives the same as normalizing once |
| KeyNames.TwoSpellingsOneField | app/server.js:6-9 | `NAME` and `<tag_NAME_tag>` normalize to the same field name |
| KeyNames.NormalizeExamples | app/server.js:5-10 | `<tag_CUST_NAME_tag>` gives `CUST_NAME`; `CUST_NAME`, `<tag_tag>`, `<tag__tag>` and `<tag_A-B_tag>` come back unchanged; `<tag___tag>` gives `_` |
| CheckboxTruth.LowerChar | app/server.js:46 | a character's lower case is never a capital; an ASCII capital becomes the small letter at the same place in the alphabet, KELVIN SIGN becomes k, and any other character is kept |
| CheckboxTruth.Lower | app/server.js:46 | lower-casing keeps the length, leaves no capital, keeps every non-capital in its place, and puts each character's lower case in its place |
| CheckboxTruth.LowerIdempotent | app/server.js:46 | lower-casing a lower-cased string changes nothing |
| CheckboxTruth.SpellsIffLowerEquals | app/server.js:46-48 | the lower-cased string equals a word exactly when the string spells that word in any mix of cases |
| CheckboxTruth.IsChecked | app/server.js:46-48 | the box is checked iff the value is boolean true or a string spelling yes, on, checked, true or 1 in any case |
| CheckboxTruth.CaseDoesNotMatter | app/server.js:46-48 | a string and its lower-cased form check the box alike |
| CheckboxTruth.TruthTable | app/server.js:44-50 | `true`, "yes", "Yes", "ON", "checked", "true", "1" and "CHEC" + KELVIN SIGN + "ED" check the box |
| CheckboxTruth.FalsityTable | app/server.js:44-50 | `false`, null, 0, 1, "no", "", "0", "off" and " yes" uncheck the box |
| Fields.TextOf | app/server.js:31 | a text field is given "" for null and `String(value)` for any other value: a string itself, "true" or "false" for a boolean, the digits that read back as a number |
| Fields.Apply | app/server.js:28-55 | it throws exactly when `String(value)` throws on a text field, dropdown or radio group, or a radio group's options lack `String(value)`; otherwise the field keeps its kind and holds the value, a radio group keeps its options, and a dropdown keeps its options as a prefix and gains exactly one when the value was missing |
| Fields.ShowsDetermines | app/server.js:30-50 | two fields of the same kind and options that hold the same value are equal |
| Fields.ApplyAccepted | app/server.js:32-43 | a value already among a dropdown's or radio group's options changes neither kind nor options |
| Fields.SetField | app/server.js:24-58 | throws iff the name is a field on which the value throws, with a TypeError when the value has no string form and the radio group's refusal of `String(value)` otherwise; returns true iff the name is a text, dropdown, radio or checkbox field; on false nothing changes; no other field ever changes; the named field becomes the per-kind result `Apply` gives, keeping its kind and holding the value |
| Fields.ApplyAllFails | app/server.js:28-43 | setting values on one field in turn throws iff one of the values throws on the field as it was |
| Fields.ApplyAllResult | app/server.js:30-50 | after a run of values the field holds the last one and accepts every value of the run |
| Fields.ApplyAllAccepted | app/server.js:32-43 | values the field already accepts leave its kind and options as they were |
| Fields.ApplyAllIdempotent | app/server.js:30-50 | setting the same run of values a second time changes nothing |
| Filling.Fill | app/server.js:64-69 | the apply loop never adds or removes a field name |
| Filling.Target | app/server.js:65 | the field a key is aimed at is the key itself, or the name it wraps in a tag |
| Filling.FillStep | app/server.js:65-67 | one pass of the loop body throws iff `setField` throws on the key, with `setField`'s error, and otherwise adds one to the count iff the key names a handled field, keeping the set of field names |
| Filling.FillExtends | app/server.js:64-69 | after the loop every field has its old kind and a radio group its old options; dropdowns only gain options |
| Filling.ExtendsAllKeepsVerdicts | app/server.js:25-55 | whether `setField` applies or throws on a key depends only on field kinds and radio options, which the loop keeps |
| Filling.FillCount | app/server.js:64-69 | `appliedCount` is the number of raw keys whose normalized name is a text, dropdown, radio or checkbox field, so at most the number of keys |
| Filling.CountHandledKept | app/server.js:64-69 | that number depends only on the field kinds |
| Filling.FillFailsIff | app/server.js:65-69 | the run fails iff some key is aimed, in the original table, at a field on which its value throws |
| Filling.FillReportsFirstRejection | app/server.js:65-69 | the error is the one of the first such key, naming that field and, for a radio refusal, the value |
| Filling.FillFailsAfter | app/server.js:65-69 | once a key throws, no later key changes the outcome |
| Filling.FillPerField | app/server.js:64-69 | each field ends as the values aimed at it, set on it in record order; fields never interact and a field no key names stays as it was |
| Filling.UnknownKeyIsNoOp | app/server.js:25-26 | a key whose normalized name has no field changes neither the count nor any field, and raises nothing |
| Filling.LastKeyWins | app/server.js:64-69 | of the keys aimed at one field, the last one's value is the one the field holds afterwards |
| Filling.FillIdempotent | app/server.js:64-69 | filling the filled form again with the same record gives the same count and the same fields |
| Filling.ThreeFieldScenario | app/server.js:64-69 | text NAME, checkbox SUBSCRIBE and dropdown PLAN [Basic, Pro] filled with `<tag_NAME_tag>`: "Ada", SUBSCRIBE: "yes", PLAN: "Enterprise" give count 3, NAME "Ada", SUBSCRIBE checked, PLAN offering and selecting Enterprise |
| Filling.TwoSpellingsBothCount | app/server.js:64-69 | `NAME` and `<tag_NAME_tag>` in one record are both counted and the later value is kept |
| Filling.BadRadioAborts | app/server.js:41-43 | a radio value outside the group's options aborts the run after an earlier key was applied |
| Filling.ObjectValueAborts | app/server.js:31 | a text field given an object with its own `toString` member throws a TypeError that aborts the run |
| AcroForm.Form.constructor | app/server.js:21 | the form starts with the template's table of fields |
| AcroForm.Form.SetText | app/server.js:31 | `setText` replaces the named text field's text and nothing else |
| AcroForm.Form.SelectOption | app/server.js:35 | `select` on a dropdown throws, changing nothing, iff the option is not listed; otherwise the option becomes the single selection |
| AcroForm.Form.AddOption | app/server.js:38 | `addOptions` appends the option to the dropdown's list and keeps the selection |
| AcroForm.Form.SelectRadio | app/server.js:43 | `select` on a radio group throws, changing nothing, iff the option is not listed; otherwise the option is chosen |
| AcroForm.Form.SetChecked | app/server.js:49-50 | `check` / `uncheck` set the checkbox state and nothing else |
| AcroForm.Form.SetField | app/server.js:24-58 | the in-place `setField` returns what `Fields.SetField` returns and leaves the table that function gives, and on a throw leaves the table unchanged |
| AcroForm.Form.FillFields | app/server.js:64-69 | the loop returns the count and leaves the table `Filling.Fill` gives; on a throw it returns that error and leaves the table as the keys before the failing one set it |

The step lemmas `Fields.ApplyAllSnoc`, `Fields.ExtendsKeepsThrows`, `Filling.FillSnoc`,
`Filling.FillPrefixStep` and `Filling.SetFieldAt` only unfold definitions for the proofs
above.

## Left out

- Reading the template and the JSON file, `JSON.parse`, `path.resolve`, the argument check and `process.exit` (lines 13-14, 75-85) are I/O. The record is a parameter: a sequence of key/value entries. The model does not compute the `Object.keys` order, where integer-like keys come first, or how `JSON.parse` treats duplicate keys.
- Loading and saving the PDF, embedding the font, `updateFieldAppearances` and `flatten` (lines 16-21, 61, 72-74) are calls into the PDF library, whose code is not part of this model. The model says nothing about appearances or flattening. The log line at line 76 is output only.
- `async`/`await`: every step is awaited in turn, so nothing runs concurrently.
- Numbers are the safe integers, of magnitude at most 2^53 - 1, where `String(value)` writes the exact decimal digits. Fractions, larger numbers (which a double holds only approximately and `String` writes with padding zeros or in exponent form) and negative zero's sign are not modelled.
- Fields.Apply: a dropdown's `select` is modelled as succeeding exactly when the value is listed. The PDF library may accept an unlisted value on an editable dropdown; that rule is not modelled.
- Fields.Apply: the library's own checks inside the mutators are not modelled, such as the maximum length of a text field or read-only flags.
- CheckboxTruth.Lower: `toLowerCase` is modelled for the characters that can change the comparison: ASCII capitals, and KELVIN SIGN, which lower-cases to `k`. Other non-ASCII characters are left as they are. Their lower-case forms are never among the ASCII truth words, so the outcome is the same.
- Field objects are values in a table, not shared references, so aliasing between field objects is not modelled.
