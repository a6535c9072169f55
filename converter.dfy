/**
 * `strToType`: the converter the URI decoder applies to the scalar texts
 * it reads, turning the literal spellings of booleans, null, undefined and
 * non-zero numbers into those values.
 */
module Converter {
  import opened Text
  import opened JsValues

  /** `strToType(value)`. `Number(value)` is modelled on decimal integer
      literals (optionally signed); a literal whose value is 0 is falsy, so
      its text is kept. */
  function StrToType(v: Value): (r: Value)
    ensures !v.Str? ==> r == v
    ensures r.Str? ==> r == v
    ensures r.Num? && v.Str? ==> IsDecimalLiteral(v.s) && r.n == DecimalValue(v.s) && r.n != 0
    ensures r.Bool? && v.Str? ==> v.s == ToJsString(r)
    ensures (r.Null? || r.Undefined?) && v.Str? ==> v.s == ToJsString(r)
    ensures v.Str? && IsDecimalLiteral(v.s) && DecimalValue(v.s) != 0 ==> r == Num(DecimalValue(v.s))
    ensures (v.Str? && v.s !in {"true", "false", "null", "undefined"} &&
             !(IsDecimalLiteral(v.s) && DecimalValue(v.s) != 0))
            ==> r == v
  {
    if !v.Str? then v
    else if v.s == "true" then Bool(true)
    else if v.s == "false" then Bool(false)
    else if v.s == "null" then Null
    else if v.s == "undefined" then Undefined
    else if IsDecimalLiteral(v.s) && DecimalValue(v.s) != 0 then Num(DecimalValue(v.s))
    else v
  }

  /** The scalars the converter produces are exactly the ones whose text it
      reads back: writing one with a template literal and converting the
      text gives the value again. */
  lemma StrToTypeRoundTrip(v: Value)
    requires v.Bool? || v.Null? || v.Undefined? || (v.Num? && v.n != 0)
    ensures StrToType(Str(ToJsString(v))) == v
  {
    if v.Num? {
      var t := IntToString(v.n);
      IntToStringRoundTrip(v.n);
      assert t[0] == '-' || t[0] == '+' || IsDigit(t[0]);
      assert t != "true" && t != "false" && t != "null" && t != "undefined";
    }
  }

  /** Only a string whose number is non-zero becomes a number: the texts of
      zero (`"0"`, `"-0"`, `"00"`) and the empty string stay strings. */
  lemma StrToTypeKeepsZero(s: string)
    requires s == "" || (IsDecimalLiteral(s) && DecimalValue(s) == 0)
    ensures StrToType(Str(s)) == Str(s)
  {
    if s != "" {
      assert s[0] == '-' || s[0] == '+' || IsDigit(s[0]);
      assert s != "true" && s != "false" && s != "null" && s != "undefined";
    }
  }

  /** Converting a converted value changes nothing more. */
  lemma StrToTypeIdempotent(v: Value)
    ensures StrToType(StrToType(v)) == StrToType(v)
  {
  }
}
