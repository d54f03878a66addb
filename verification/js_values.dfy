/**
  The slice of JavaScript value semantics that the view code relies on:
  the values a record field or a map entry can hold, truthiness, strict
  equality (`===`), the `||` operator, property lookup on a plain object
  (a missing property reads as `undefined`) and the text a value turns
  into inside a template literal.

  Numbers are modelled as integers (plus `NaN`); objects, arrays and
  functions are opaque references compared by identity.
 */
module JsValues {

  datatype Value =
    | Undefined
    | Null
    | Bool(b: bool)
    | Num(n: int)
    | NaN
    | Str(s: string)
    | Obj(ref: nat)

  /** The error a property read on `undefined` raises. */
  datatype JsError = TypeError

  datatype Option<+T> = None | Some(value: T)

  datatype Result<+T> = Success(value: T) | Failure(error: JsError)

  /** JavaScript truthiness: `false`, `0`, `NaN`, `""`, `null` and
      `undefined` are the falsy values. */
  predicate Truthy(v: Value) {
    match v
    case Undefined => false
    case Null => false
    case Bool(b) => b
    case Num(n) => n != 0
    case NaN => false
    case Str(s) => s != ""
    case Obj(_) => true
  }

  /** `a === b`: same type and same value, except that `NaN` equals nothing. */
  predicate StrictEquals(a: Value, b: Value) {
    a == b && a != NaN
  }

  /** `v === true` */
  predicate IsTrue(v: Value)
    ensures IsTrue(v) <==> v == Bool(true)
  {
    StrictEquals(v, Bool(true))
  }

  /** `a || b`: the left operand when it is truthy, otherwise the right one. */
  function Or(a: Value, b: Value): (r: Value)
    ensures Truthy(a) ==> r == a
    ensures !Truthy(a) ==> r == b
  {
    if Truthy(a) then a else b
  }

  /** `obj[key]` on a plain object whose own properties are `obj`. */
  function Get(obj: map<string, Value>, key: string): (r: Value)
    ensures key in obj ==> r == obj[key]
    ensures key !in obj ==> r == Undefined
  {
    if key in obj then obj[key] else Undefined
  }

  function DigitChar(d: nat): (c: char)
    requires d < 10
    ensures '0' <= c <= '9'
  {
    ('0' as int + d) as char
  }

  /** The number a string of decimal digits denotes. */
  function DecimalValue(t: string): nat
    requires forall i :: 0 <= i < |t| ==> '0' <= t[i] <= '9'
    decreases |t|
  {
    if t == [] then 0
    else DecimalValue(t[..|t| - 1]) * 10 + (t[|t| - 1] as int - '0' as int)
  }

  /** Decimal notation of a natural number, most significant digit first. */
  function NatText(n: nat): (t: string)
    ensures |t| > 0
    ensures forall i :: 0 <= i < |t| ==> '0' <= t[i] <= '9'
  {
    if n < 10 then [DigitChar(n)] else NatText(n / 10) + [DigitChar(n % 10)]
  }

  /** Reading the decimal text back gives the number: `NatText` is exact,
      and distinct numbers get distinct texts. */
  lemma {:induction false} NatTextRoundTrip(n: nat)
    ensures DecimalValue(NatText(n)) == n
    decreases n
  {
    var t := NatText(n);
    if n < 10 {
      assert t[..|t| - 1] == [];
    } else {
      NatTextRoundTrip(n / 10);
      assert t[..|t| - 1] == NatText(n / 10);
    }
  }

  lemma NatTextInjective(m: nat, n: nat)
    ensures NatText(m) == NatText(n) <==> m == n
  {
    if NatText(m) == NatText(n) {
      NatTextRoundTrip(m);
      NatTextRoundTrip(n);
    }
  }

  /** `${v}`: the string a value becomes inside a template literal. */
  function ToText(v: Value): string {
    match v
    case Undefined => "undefined"
    case Null => "null"
    case Bool(b) => if b then "true" else "false"
    case Num(n) => if n < 0 then "-" + NatText(-n) else NatText(n)
    case NaN => "NaN"
    case Str(s) => s
    case Obj(_) => "[object Object]"
  }
}
