/** normalizeKey: a record key is either a plain field name (CUST_NAME) or the same
    name wrapped in a tag (<tag_CUST_NAME_tag>). The wrapped form is recognised by the
    anchored pattern ^<tag_([A-Za-z0-9_]+)_tag>$ and replaced by its captured group. */
module KeyNames {

  const TagOpen: string := "<tag_"
  const TagClose: string := "_tag>"

  /** The character class [A-Za-z0-9_]. */
  predicate IsNameChar(c: char) {
    ('A' <= c <= 'Z') || ('a' <= c <= 'z') || ('0' <= c <= '9') || c == '_'
  }

  /** One or more characters of [A-Za-z0-9_]: what the capture group accepts. */
  predicate IsName(s: string) {
    |s| >= 1 && forall i :: 0 <= i < |s| ==> IsNameChar(s[i])
  }

  /** The tag-wrapped spelling of a name. */
  function Wrap(name: string): string {
    TagOpen + name + TagClose
  }

  /** The text between the opening and the closing tag, when the key is long enough. */
  function Inner(k: string): string
    requires |k| >= |TagOpen| + |TagClose|
  {
    k[|TagOpen|..|k| - |TagClose|]
  }

  /** The whole key matches the pattern: it starts with the opening tag, ends with the
      closing tag, and what lies between is a non-empty run of name characters. */
  predicate MatchesTag(k: string) {
    && |k| >= |TagOpen| + |TagClose|
    && k[..|TagOpen|] == TagOpen
    && k[|k| - |TagClose|..] == TagClose
    && IsName(Inner(k))
  }

  /** normalizeKey(k): the captured name when the key matches, the key itself otherwise. */
  function NormalizeKey(k: string): (r: string)
    ensures r == k || (IsName(r) && k == Wrap(r))
  {
    if MatchesTag(k) then Inner(k) else k
  }

  /** Every tag-wrapped name normalizes to the name it wraps. */
  lemma NormalizeWrapped(name: string)
    requires IsName(name)
    ensures NormalizeKey(Wrap(name)) == name
  {
    var k := Wrap(name);
    assert k[..|TagOpen|] == TagOpen;
    assert k[|k| - |TagClose|..] == TagClose;
    assert Inner(k) == name;
  }

  /** A key that is no tag-wrapped name comes back unchanged. */
  lemma NormalizeUnwrapped(k: string)
    requires forall name :: IsName(name) ==> k != Wrap(name)
    ensures NormalizeKey(k) == k
  {
  }

  /** A name is never itself tag-wrapped: it cannot start with '<'. */
  lemma NameIsNotTagged(name: string)
    requires IsName(name)
    ensures !MatchesTag(name)
  {
    assert IsNameChar(name[0]);
    if |name| >= |TagOpen| {
      assert name[..|TagOpen|][0] == name[0];
    }
  }

  /** Normalizing twice is normalizing once. */
  lemma NormalizeIdempotent(k: string)
    ensures NormalizeKey(NormalizeKey(k)) == NormalizeKey(k)
  {
    var r := NormalizeKey(k);
    if r != k {
      NameIsNotTagged(r);
    }
  }

  /** A plain name and its wrapped spelling denote the same field. */
  lemma TwoSpellingsOneField(name: string)
    requires IsName(name)
    ensures NormalizeKey(name) == NormalizeKey(Wrap(name)) == name
  {
    NameIsNotTagged(name);
    NormalizeWrapped(name);
  }

  lemma NormalizeExamples()
    ensures NormalizeKey("<tag_CUST_NAME_tag>") == "CUST_NAME"
    ensures NormalizeKey("CUST_NAME") == "CUST_NAME"
    ensures NormalizeKey("<tag_tag>") == "<tag_tag>"
    ensures NormalizeKey("<tag__tag>") == "<tag__tag>"
    ensures NormalizeKey("<tag___tag>") == "_"
    ensures NormalizeKey("<tag_A-B_tag>") == "<tag_A-B_tag>"
  {
    NormalizeWrapped("CUST_NAME");
    assert Wrap("CUST_NAME") == "<tag_CUST_NAME_tag>";
    NormalizeWrapped("_");
    assert Wrap("_") == "<tag___tag>";
    assert Inner("<tag__tag>") == "";
    assert Inner("<tag_A-B_tag>")[1] == '-';
    NameIsNotTagged("CUST_NAME");
  }
}
