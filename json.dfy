/** Values of the parsed JSON record and JavaScript's String(value) on them.
    Numbers are the safe integers (see README, "Left out"). */
module Json {

  import opened Outcomes

  /** Number.MAX_SAFE_INTEGER, 2^53 - 1. */
  const MaxSafe: int := 9007199254740991

  /** The integers a JSON number denotes exactly, and whose String form is their plain
      decimal digits. */
  type SafeInteger = n: int | -MaxSafe <= n <= MaxSafe

  datatype JsonValue =
    | JNull
    | JBool(b: bool)
    | JNumber(n: SafeInteger)
    | JString(s: string)
    | JArray(elems: seq<JsonValue>)
    | JObject(members: seq<(string, JsonValue)>)

  predicate IsDigit(c: char) {
    '0' <= c <= '9'
  }

  predicate AllDigits(s: string) {
    forall i :: 0 <= i < |s| ==> IsDigit(s[i])
  }

  function DigitChar(d: nat): (c: char)
    requires d < 10
    ensures IsDigit(c) && DigitValue(c) == d
  {
    ('0' as int + d) as char
  }

  function DigitValue(c: char): nat
    requires IsDigit(c)
  {
    c as int - '0' as int
  }

  /** Decimal digits of a natural number, most significant first, no leading zero. */
  function NatToDecimal(n: nat): (s: string)
    ensures |s| >= 1 && AllDigits(s)
    ensures s[0] == '0' ==> n == 0
    decreases n
  {
    if n < 10 then [DigitChar(n)] else NatToDecimal(n / 10) + [DigitChar(n % 10)]
  }

  /** The number a string of decimal digits denotes. */
  function DecimalValue(s: string): nat
    requires AllDigits(s)
    decreases |s|
  {
    if s == [] then 0 else DecimalValue(s[..|s| - 1]) * 10 + DigitValue(s[|s| - 1])
  }

  lemma {:induction false} DecimalRoundTrip(n: nat)
    ensures DecimalValue(NatToDecimal(n)) == n
    decreases n
  {
    if n >= 10 {
      var s := NatToDecimal(n);
      DecimalRoundTrip(n / 10);
      assert s[..|s| - 1] == NatToDecimal(n / 10);
    }
  }

  /** String(n) for an integer n: a minus sign for a negative n, then the decimal
      digits of its magnitude. */
  function IntToDecimal(n: int): (r: string)
    ensures |r| >= 1 && (r[0] == '-' <==> n < 0)
    ensures var d := if n < 0 then r[1..] else r;
      |d| >= 1 && AllDigits(d) && (d[0] == '0' ==> n == 0)
  {
    if n < 0 then "-" + NatToDecimal(-n) else NatToDecimal(n)
  }

  /** Reads back what IntToDecimal writes: an optional minus sign, then digits. */
  function ParseDecimal(s: string): (r: Option<int>) {
    if |s| >= 2 && s[0] == '-' && AllDigits(s[1..]) then Some(0 - DecimalValue(s[1..]) as int)
    else if |s| >= 1 && AllDigits(s) then Some(DecimalValue(s))
    else None
  }

  lemma IntToDecimalRoundTrip(n: int)
    ensures ParseDecimal(IntToDecimal(n)) == Some(n)
  {
    var s := IntToDecimal(n);
    if n < 0 {
      var d := NatToDecimal(-n);
      DecimalRoundTrip(-n);
      assert s == "-" + d && s[1..] == d;
      assert |s| >= 2 && s[0] == '-' && AllDigits(s[1..]);
    } else {
      DecimalRoundTrip(n);
      assert IsDigit(s[0]) && s[0] != '-';
    }
  }

  /** Different numbers are written differently. */
  lemma IntToDecimalInjective(a: int, b: int)
    ensures IntToDecimal(a) == IntToDecimal(b) ==> a == b
  {
    IntToDecimalRoundTrip(a);
    IntToDecimalRoundTrip(b);
  }

  /** Total length of the pieces. */
  function TotalLength(pieces: seq<string>): nat
    decreases |pieces|
  {
    if pieces == [] then 0 else TotalLength(pieces[..|pieces| - 1]) + |pieces[|pieces| - 1]|
  }

  /** Array.prototype.join(","): the pieces separated by commas. The result starts with
      the first piece, a comma follows it when there is a second, and the length is that
      of the pieces plus one comma between each two. */
  function JoinCommas(pieces: seq<string>): (r: string)
    ensures pieces == [] ==> r == ""
    ensures |pieces| == 1 ==> r == pieces[0]
    ensures pieces != [] ==> pieces[0] <= r && |r| == TotalLength(pieces) + |pieces| - 1
    ensures |pieces| >= 2 ==> |r| > |pieces[0]| && r[|pieces[0]|] == ','
    decreases |pieces|
  {
    if pieces == [] then ""
    else if |pieces| == 1 then pieces[0]
    else JoinCommas(pieces[..|pieces| - 1]) + "," + pieces[|pieces| - 1]
  }

  /** Joining two or more pieces is the first piece, a comma, and the rest joined: with
      the one-piece case this fixes the joined string of every list of pieces. */
  lemma {:induction false} JoinCommasFront(pieces: seq<string>)
    requires |pieces| >= 2
    ensures JoinCommas(pieces) == pieces[0] + "," + JoinCommas(pieces[1..])
    decreases |pieces|
  {
    var n := |pieces|;
    var init := pieces[..n - 1];
    if n > 2 {
      JoinCommasFront(init);
      assert init[1..] == pieces[1..][..n - 2];
      assert init[0] == pieces[0];
    } else {
      assert pieces[1..] == [pieces[1]];
      assert init == [pieces[0]];
    }
  }

  /** String(v) returns rather than throws. JSON.parse gives an object its own members,
      so a member named toString hides Object.prototype.toString; its value is never
      callable, and valueOf gives back the object itself, so String throws a TypeError.
      An array is joined, so it has a string form when each of its elements has one. */
  predicate Stringable(v: JsonValue)
    decreases v
  {
    match v
    case JArray(xs) => forall i :: 0 <= i < |xs| ==> Stringable(xs[i])
    case JObject(ms) => forall i :: 0 <= i < |ms| ==> ms[i].0 != "toString"
    case _ => true
  }

  /** JavaScript's String(v). An array joins its elements with commas, a null element
      becoming the empty string; a plain object becomes "[object Object]". */
  function ToStr(v: JsonValue): (r: string)
    requires Stringable(v)
    ensures v.JString? ==> r == v.s
    ensures v.JNumber? ==> ParseDecimal(r) == Some(v.n as int)
    ensures v.JBool? ==> (r == "true" <==> v.b) && (r == "false" <==> !v.b)
    ensures v.JNull? ==> r == "null"
    ensures v.JObject? ==> r == "[object Object]"
    ensures v.JArray? && v.elems == [] ==> r == ""
    ensures v.JArray? && |v.elems| == 1 ==> r == (if v.elems[0].JNull? then "" else ToStr(v.elems[0]))
    decreases v
  {
    match v
    case JNull => "null"
    case JBool(b) => if b then "true" else "false"
    case JNumber(n) => IntToDecimalRoundTrip(n); IntToDecimal(n)
    case JString(s) => s
    case JArray(xs) =>
      JoinCommas(seq(|xs|, i requires 0 <= i < |xs| => if xs[i].JNull? then "" else ToStr(xs[i])))
    case JObject(_) => "[object Object]"
  }

  /** Different numbers give different strings. */
  lemma NumberStrings(a: SafeInteger, b: SafeInteger)
    ensures ToStr(JNumber(a)) == ToStr(JNumber(b)) <==> a == b
  {
    IntToDecimalInjective(a, b);
  }

  lemma ToStrExamples()
    ensures ToStr(JNumber(42)) == "42"
    ensures ToStr(JNumber(-7)) == "-7"
    ensures ToStr(JBool(false)) == "false"
  {
    assert NatToDecimal(42) == NatToDecimal(4) + [DigitChar(2)];
  }

  lemma ToStrArrayExample()
    ensures ToStr(JArray([JString("a"), JNull, JNumber(1)])) == "a,,1"
  {
    var xs := [JString("a"), JNull, JNumber(1)];
    var pieces := seq(|xs|, i requires 0 <= i < |xs| => if xs[i].JNull? then "" else ToStr(xs[i]));
    assert pieces == ["a", "", "1"];
    assert ["a", "", "1"][..2] == ["a", ""];
    assert ["a", ""][..1] == ["a"];
    assert JoinCommas(["a", ""]) == "a,";
  }

  /** An object with its own toString member has no string form, nor has an array
      holding one; an object without one has. */
  lemma StringableExamples()
    ensures !Stringable(JObject([("toString", JNumber(1))]))
    ensures !Stringable(JArray([JNull, JObject([("toString", JNull)])]))
    ensures Stringable(JObject([("name", JString("toString"))]))
  {
    assert [("toString", JNumber(1))][0].0 == "toString";
    assert [("toString", JNull)][0].0 == "toString";
    assert !Stringable(JObject([("toString", JNull)]));
    assert [JNull, JObject([("toString", JNull)])][1] == JObject([("toString", JNull)]);
  }

  /** String(v) of one element inside an array: null gives the empty string. */
  function ElementStr(v: JsonValue): (r: string)
    requires Stringable(v)
    ensures v.JNull? ==> r == ""
    ensures !v.JNull? ==> r == ToStr(v)
  {
    if v.JNull? then "" else ToStr(v)
  }

  /** An array of two or more elements gives its first element's string, a comma, and the
      string of the remaining elements; with the one-element case of ToStr this fixes
      String(v) of every array. */
  lemma ToStrArrayFront(xs: seq<JsonValue>)
    requires |xs| >= 2 && Stringable(JArray(xs))
    ensures Stringable(JArray(xs[1..]))
    ensures ToStr(JArray(xs)) == ElementStr(xs[0]) + "," + ToStr(JArray(xs[1..]))
  {
    var ys := xs[1..];
    assert Stringable(JArray(ys)) by {
      forall i | 0 <= i < |ys| ensures Stringable(ys[i]) {
        assert ys[i] == xs[i + 1];
      }
    }
    var pieces := seq(|xs|, i requires 0 <= i < |xs| => if xs[i].JNull? then "" else ToStr(xs[i]));
    var rest := seq(|ys|, i requires 0 <= i < |ys| => if ys[i].JNull? then "" else ToStr(ys[i]));
    assert pieces[1..] == rest by {
      forall i | 0 <= i < |rest| ensures pieces[1..][i] == rest[i] {
        assert ys[i] == xs[i + 1];
      }
    }
    assert pieces[0] == ElementStr(xs[0]);
    JoinCommasFront(pieces);
  }
}
