/**
 * The JavaScript values a request body or a stored record can hold once
 * `JSON.parse` has produced them, and the three language rules the service
 * applies to them: truthiness (`x || fallback`), property access and `Number(x)`.
 */
module JsValues {
  import opened Wrappers
  import JsText

  /** A value `JSON.parse` can produce. */
  datatype Json =
    | JNull
    | JBool(b: bool)
    | JNum(n: real)
    | JStr(s: string)
    | JArr(items: seq<Json>)
    | JObj(fields: map<string, Json>)

  /** What a handler can throw: the service's own error messages and TypeError. */
  datatype Fault =
    | PayloadTooLarge   // 'PAYLOAD_TOO_LARGE'
    | InvalidJson       // 'INVALID_JSON'
    | DbQueryFailed     // 'DB_QUERY_FAILED'
    | TypeError         // a method of a value that lacks it, or a property of null

  /** ECMAScript ToBoolean; `None` is `undefined`. */
  predicate Truthy(v: Option<Json>)
  {
    match v
    case None => false
    case Some(JNull) => false
    case Some(JBool(b)) => b
    case Some(JNum(n)) => n != 0.0
    case Some(JStr(s)) => s != []
    case Some(_) => true
  }

  /** `v || fallback`. */
  function Or(v: Option<Json>, fallback: Json): (r: Json)
    ensures Truthy(v) ==> Some(r) == v
    ensures !Truthy(v) ==> r == fallback
  {
    if Truthy(v) then v.value else fallback
  }

  /**
   * `obj[key]` for a value that is not null: an object's own field, `undefined`
   * otherwise. (None of the keys the service reads is an inherited property.)
   */
  function Get(obj: Json, key: string): (r: Option<Json>)
    ensures r.Some? <==> obj.JObj? && key in obj.fields
    ensures r.Some? ==> r.value == obj.fields[key]
  {
    if obj.JObj? && key in obj.fields then Some(obj.fields[key]) else None
  }

  /**
   * A JavaScript number, as an exact real or NaN. The IEEE double behind it
   * is not modelled: a value past the double range (which JavaScript makes
   * Infinity) and the rounding of long digit strings are kept exact here.
   */
  datatype JsNumber = NaN | Finite(r: real)

  /** ToBoolean of a number: neither zero nor NaN. */
  predicate NumberTruthy(x: JsNumber)
  {
    x.Finite? && x.r != 0.0
  }

  predicate IsDigit(c: char)
  {
    '0' <= c <= '9'
  }

  /** The value of a non-empty run of decimal digits. */
  function DecimalValue(s: string): nat
    requires forall k :: 0 <= k < |s| ==> IsDigit(s[k])
  {
    if s == [] then 0
    else
      assert IsDigit(s[|s| - 1]);
      DecimalValue(s[..|s| - 1]) * 10 + (s[|s| - 1] as int - '0' as int)
  }

  predicate AllDigits(s: string)
  {
    s != [] && forall k :: 0 <= k < |s| ==> IsDigit(s[k])
  }

  /**
   * ECMAScript StringToNumber, for the signed decimal-integer syntax:
   * surrounding white space is ignored, blank text is 0, digits with an
   * optional `+` or `-` in front are their value, anything else NaN.
   */
  function StringToNumber(s: string): (x: JsNumber)
    ensures JsText.AllSpace(s) ==> x == Finite(0.0)
    ensures !JsText.AllSpace(s) && x.Finite? ==> AllDigits(Digits(JsText.Trim(s)))
    ensures !JsText.AllSpace(s) && AllDigits(Digits(JsText.Trim(s))) ==>
      x.Finite? && x.r == (if JsText.Trim(s)[0] == '-' then -1.0 else 1.0) * DecimalValue(Digits(JsText.Trim(s))) as real
  {
    var t := JsText.Trim(s);
    JsText.TrimEmptyIff(s);
    if t == [] then Finite(0.0)
    else if AllDigits(Digits(t)) then
      var n := DecimalValue(Digits(t)) as real;
      Finite(if t[0] == '-' then -n else n)
    else NaN
  }

  /** The decimal text of `n`, most significant digit first, no sign, no leading zero. */
  function NatText(n: nat): (t: string)
    ensures AllDigits(t)
  {
    var last := [((n % 10) + '0' as int) as char];
    if n < 10 then last else NatText(n / 10) + last
  }

  /** Reading the decimal text of `n` back gives `n`. */
  lemma {:induction false} NatTextValue(n: nat)
    ensures DecimalValue(NatText(n)) == n
  {
    if n >= 10 {
      NatTextValue(n / 10);
      var t := NatText(n);
      assert t[..|t| - 1] == NatText(n / 10);
    }
  }

  /** `Number(String(n))` is `n` for a whole number, with or without a minus sign. */
  lemma StringToNumberNatText(n: nat)
    ensures StringToNumber(NatText(n)) == Finite(n as real)
    ensures StringToNumber(['-'] + NatText(n)) == Finite(-(n as real))
  {
    var t := NatText(n);
    NatTextValue(n);
    JsText.TrimOfTrimmed(t);
    assert Digits(t) == t;
    var m := ['-'] + t;
    JsText.TrimOfTrimmed(m);
    assert Digits(m) == t;
  }

  /** The text after an optional sign. */
  function Digits(t: string): (d: string)
    ensures |d| <= |t|
  {
    if t != [] && (t[0] == '+' || t[0] == '-') then t[1..] else t
  }

  /**
   * Converting the value to text throws: an object whose own `toString`
   * field hides the inherited method (a parsed field is never callable, and
   * `valueOf` gives the object itself, so no conversion is left), or an
   * array holding such an object at any depth (`join` converts every element).
   */
  predicate ToStringThrows(j: Json)
  {
    match j
    case JObj(fields) => "toString" in fields
    case JArr(items) => exists i :: 0 <= i < |items| && ToStringThrows(items[i])
    case _ => false
  }

  /**
   * `Number(j)` for a value that is not `undefined`. An array goes through
   * its text, `join(',')` of its elements: none is `''`, which is 0; two or
   * more hold a comma, which is NaN; one element gives that element's text,
   * which is `''` for null, and reads as the element itself does for a
   * number, a string, an object or an array, but as NaN for a boolean
   * (`'true'` is not numeric). A number's text reads back as that number.
   */
  function ValueToNumber(j: Json): (x: Result<JsNumber, Fault>)
    ensures x.Err? <==> ToStringThrows(j)
    ensures x.Err? ==> x.error == TypeError
    ensures j == JNull ==> x == Ok(Finite(0.0))
    ensures j.JBool? ==> x == Ok(Finite(if j.b then 1.0 else 0.0))
    ensures j.JNum? ==> x == Ok(Finite(j.n))
    ensures j.JStr? ==> x == Ok(StringToNumber(j.s))
    ensures j.JObj? && x.Ok? ==> x.value == NaN
    ensures j.JArr? && |j.items| != 1 && x.Ok? ==> x.value == if j.items == [] then Finite(0.0) else NaN
    ensures j.JArr? && |j.items| == 1 && !j.items[0].JBool? ==> x == ValueToNumber(j.items[0])
    ensures j.JArr? && |j.items| == 1 && j.items[0].JBool? ==> x == Ok(NaN)
  {
    match j
    case JNull => Ok(Finite(0.0))
    case JBool(b) => Ok(Finite(if b then 1.0 else 0.0))
    case JNum(n) => Ok(Finite(n))
    case JStr(s) => Ok(StringToNumber(s))
    case JObj(fields) => if "toString" in fields then Err(TypeError) else Ok(NaN)
    case JArr(items) =>
      if |items| == 1 then
        if items[0].JBool? then Ok(NaN) else ValueToNumber(items[0])
      else if ToStringThrows(j) then Err(TypeError)
      else if items == [] then Ok(Finite(0.0))
      else Ok(NaN)
  }

  /** `Number(v)`; `None` is `undefined`. */
  function ToNumber(v: Option<Json>): (x: Result<JsNumber, Fault>)
    ensures v.None? ==> x == Ok(NaN)
    ensures v.Some? ==> x == ValueToNumber(v.value)
  {
    match v
    case None => Ok(NaN)
    case Some(j) => ValueToNumber(j)
  }

  /** A one-element array is read through its element's text: alike for a number, not for a boolean. */
  lemma WrappedNumber(n: real, b: bool)
    ensures ValueToNumber(JArr([JNum(n)])) == ValueToNumber(JNum(n)) == Ok(Finite(n))
    ensures ValueToNumber(JArr([JBool(b)])) == Ok(NaN) != ValueToNumber(JBool(b))
  {
  }
}
