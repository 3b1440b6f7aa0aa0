/**
 * The JavaScript values the front end receives from the back end's JSON
 * answers, and the few coercions the page code applies to them.
 */
module Js {
  import opened Text

  /**
   * A JSON-decoded value as the page code sees it. Numbers are integers
   * here; a fractional number, such as a salary, is not represented.
   */
  datatype Value = Null | Undefined | Bool(b: bool) | Num(n: int) | Str(s: string)

  /** One property of an object, in the order `Object.keys` lists it. */
  datatype Field = Field(key: string, value: Value)

  /** A decoded JSON object: its properties in key order. */
  datatype Record = Record(fields: seq<Field>)

  /**
   * A value the page code expects to be an array of records: such an array,
   * a falsy value (`null`, `undefined`, a missing key, `false`, `0`, `""`),
   * or a truthy value that is not an array (an object, a non-empty string,
   * a non-zero number, `true`).
   */
  datatype Data = Items(rows: seq<Record>) | Absent | NonArray

  /** `Object.keys(r)`. */
  function Keys(r: Record): (ks: seq<string>)
    ensures |ks| == |r.fields|
    ensures forall i :: 0 <= i < |ks| ==> ks[i] == r.fields[i].key
  {
    seq(|r.fields|, i requires 0 <= i < |r.fields| => r.fields[i].key)
  }

  /** `r[key]`: the value of the property, or `undefined` when there is none. */
  function Get(r: Record, key: string): (v: Value)
    ensures v != Undefined ==> exists i :: 0 <= i < |r.fields| && r.fields[i] == Field(key, v)
    ensures (forall i :: 0 <= i < |r.fields| ==> r.fields[i].key != key) ==> v == Undefined
    decreases |r.fields|
  {
    if r.fields == [] then Undefined
    else if r.fields[0].key == key then r.fields[0].value
    else
      var v := Get(Record(r.fields[1..]), key);
      assert forall i :: 0 <= i < |r.fields| - 1 ==> r.fields[1..][i] == r.fields[i + 1];
      v
  }

  /** A property that is listed is found under its key, with the value of its first listing. */
  lemma {:induction false} GetListed(r: Record, i: nat)
    requires i < |r.fields| && forall j :: 0 <= j < i ==> r.fields[j].key != r.fields[i].key
    ensures Get(r, r.fields[i].key) == r.fields[i].value
    decreases |r.fields|
  {
    if i > 0 {
      var rest := Record(r.fields[1..]);
      assert rest.fields[i - 1] == r.fields[i];
      GetListed(rest, i - 1);
    }
  }

  /** `String(n)` for an integer. */
  function IntToString(n: int): (r: string)
    ensures |r| > 0
  {
    if n < 0 then "-" + NatToString(-n) else NatToString(n)
  }

  /** `String(v)`: the text template literals and `toString()` produce. */
  function ToStr(v: Value): string {
    match v
    case Null => "null"
    case Undefined => "undefined"
    case Bool(b) => if b then "true" else "false"
    case Num(n) => IntToString(n)
    case Str(s) => s
  }

  /** `!v`: `null`, `undefined`, `false`, `0` and the empty string are falsy. */
  predicate Falsy(v: Value) {
    v == Null || v == Undefined || v == Bool(false) || v == Num(0) || v == Str("")
  }

  /** `val === 1 || val === true || val === "true" || val === "TRUE"`: an active skill flag. */
  predicate Active(v: Value) {
    v == Num(1) || v == Bool(true) || v == Str("true") || v == Str("TRUE")
  }

  /** `value !== null && value !== undefined ? String(value) : '-'` */
  function Shown(v: Value): (s: string)
    ensures v.Null? || v.Undefined? <==> s == "-" && !v.Str?
    ensures v.Str? ==> s == v.s
  {
    if v == Null || v == Undefined then "-" else ToStr(v)
  }

  /** The decimal text of an integer reads back as its value. */
  lemma IntToStringRoundTrip(n: int)
    ensures n >= 0 ==> IsDigitString(IntToString(n)) && DigitsValue(IntToString(n)) == n
    ensures n < 0 ==>
      IntToString(n)[0] == '-' && IsDigitString(IntToString(n)[1..]) && DigitsValue(IntToString(n)[1..]) == -n
  {
    if n >= 0 {
      NatToStringRoundTrip(n);
    } else {
      assert IntToString(n)[1..] == NatToString(-n);
      NatToStringRoundTrip(-n);
    }
  }

  predicate IsDigitString(s: string) {
    forall c :: c in s ==> IsDigit(c)
  }

  /** An active flag is never falsy, and every value is shown as some text other than the empty one, except the empty string itself. */
  lemma ActiveNotFalsy(v: Value)
    ensures Active(v) ==> !Falsy(v)
    ensures Shown(v) == "" <==> v == Str("")
  {
    if v.Num? {
      assert |IntToString(v.n)| > 0;
    }
  }
}
