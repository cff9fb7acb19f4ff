/** The truth coercion a checkbox applies to its value: a string is lower-cased first,
    then the value checks the box exactly when it is boolean true or one of the words
    yes, on, checked, true, 1. */
module CheckboxTruth {

  import opened Json

  /** The capitals toLowerCase changes in a way the comparison below can observe: the
      ASCII capitals, and KELVIN SIGN (U+212A), whose lowercase is the letter k. */
  predicate IsUpper(c: char) {
    'A' <= c <= 'Z' || c == '\U{212A}'
  }

  /** String.prototype.toLowerCase on one character: a capital becomes its small letter,
      and every other character is kept. */
  function LowerChar(c: char): (r: char)
    ensures !IsUpper(r)
    ensures !IsUpper(c) ==> r == c
    ensures 'A' <= c <= 'Z' ==> 'a' <= r <= 'z' && r as int - 'a' as int == c as int - 'A' as int
    ensures c == '\U{212A}' ==> r == 'k'
  {
    if 'A' <= c <= 'Z' then (c as int + 32) as char
    else if c == '\U{212A}' then 'k'
    else c
  }

  /** String.prototype.toLowerCase: the result has the same length, no capital left, and
      every character that is not a capital where it was. */
  function Lower(s: string): (r: string)
    ensures |r| == |s|
    ensures forall i :: 0 <= i < |r| ==> !IsUpper(r[i])
    ensures forall i :: 0 <= i < |s| && !IsUpper(s[i]) ==> r[i] == s[i]
    ensures forall i :: 0 <= i < |s| ==> r[i] == LowerChar(s[i])
  {
    seq(|s|, i requires 0 <= i < |s| => LowerChar(s[i]))
  }

  /** Lower-casing a lower-cased string changes nothing. */
  lemma LowerIdempotent(s: string)
    ensures Lower(Lower(s)) == Lower(s)
  {
    var l := Lower(s);
    assert forall i :: 0 <= i < |l| ==> Lower(l)[i] == l[i];
  }

  /** s spells the lower-case word w in any mix of cases. */
  predicate SpellsIgnoringCase(s: string, w: string) {
    |s| == |w| && forall i :: 0 <= i < |s| ==> LowerChar(s[i]) == w[i]
  }

  lemma SpellsIffLowerEquals(s: string, w: string)
    ensures SpellsIgnoringCase(s, w) <==> Lower(s) == w
  {
    if SpellsIgnoringCase(s, w) {
      assert Lower(s) == w;
    }
  }

  const TruthWords: set<string> := {"yes", "on", "checked", "true", "1"}

  /** Whether setting a checkbox to value v checks it. */
  predicate IsChecked(v: JsonValue)
    ensures IsChecked(v) <==>
      || v == JBool(true)
      || (v.JString? &&
          (|| SpellsIgnoringCase(v.s, "yes") || SpellsIgnoringCase(v.s, "on")
           || SpellsIgnoringCase(v.s, "checked") || SpellsIgnoringCase(v.s, "true")
           || SpellsIgnoringCase(v.s, "1")))
  {
    match v
    case JBool(b) => b
    case JString(s) =>
      SpellsIffLowerEquals(s, "yes"); SpellsIffLowerEquals(s, "on");
      SpellsIffLowerEquals(s, "checked"); SpellsIffLowerEquals(s, "true");
      SpellsIffLowerEquals(s, "1");
      Lower(s) in TruthWords
    case _ => false
  }

  /** The case of a string never changes whether it checks the box. */
  lemma {:induction false} CaseDoesNotMatter(s: string)
    ensures IsChecked(JString(Lower(s))) == IsChecked(JString(s))
  {
    LowerIdempotent(s);
  }

  /** The values that check the box. */
  lemma TruthTable()
    ensures IsChecked(JBool(true))
    ensures IsChecked(JString("yes")) && IsChecked(JString("Yes")) && IsChecked(JString("ON"))
    ensures IsChecked(JString("checked")) && IsChecked(JString("true")) && IsChecked(JString("1"))
    ensures IsChecked(JString("CHEC\U{212A}ED"))
  {
    assert Lower("yes") == "yes";
    assert Lower("Yes") == "yes";
    assert Lower("ON") == "on";
    assert Lower("checked") == "checked";
    assert Lower("CHEC\U{212A}ED") == "checked";
    assert Lower("true") == "true";
    assert Lower("1") == "1";
  }

  /** Values that leave the box unchecked. */
  lemma FalsityTable()
    ensures !IsChecked(JBool(false)) && !IsChecked(JNull) && !IsChecked(JNumber(1)) && !IsChecked(JNumber(0))
    ensures !IsChecked(JString("no")) && !IsChecked(JString("")) && !IsChecked(JString("0"))
    ensures !IsChecked(JString("off")) && !IsChecked(JString(" yes"))
  {
    assert Lower("no") == "no";
    assert Lower("0") == "0";
    assert Lower("off") == "off";
    assert Lower(" yes")[0] == ' ';
  }
}
