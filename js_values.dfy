/** JavaScript values as they arrive in a parsed JSON request body, and the
    two tests the route handlers apply to them: loose equality with `null`
    and truthiness (`filter(Boolean)`). */
module JsValues {

  /** A value read from a request body. `Undefined` is what reading a key
      the body does not have yields. JSON numbers are kept as reals, so
      NaN never arises. An object is kept without its properties. */
  datatype JsValue =
    | Undefined
    | Null
    | Bool(b: bool)
    | Num(x: real)
    | Str(s: string)
    | Arr(items: seq<JsValue>)
    | Obj

  /** A parsed JSON object body: absent keys read as `Undefined`. */
  type JsObject = map<string, JsValue>

  /** The value of `o[key]`, as object destructuring reads it. */
  function Field(o: JsObject, key: string): (v: JsValue)
    ensures key !in o ==> v == Undefined
  {
    if key in o then o[key] else Undefined
  }

  /** `v == null`: loose equality holds for `null` and `undefined` only. */
  predicate IsNullish(v: JsValue) {
    v.Undefined? || v.Null?
  }

  /** `Boolean(v)`: the falsy values are `undefined`, `null`, `false`, `0`
      and `""`; every array and object is truthy, empty ones included. */
  predicate Truthy(v: JsValue) {
    match v
    case Undefined => false
    case Null => false
    case Bool(b) => b
    case Num(x) => x != 0.0
    case Str(s) => s != []
    case Arr(_) => true
    case Obj => true
  }

  /** `v == null || v.length < 1`. Strings and arrays have a `length`;
      for numbers, booleans and objects it is `undefined`, and
      `undefined < 1` is false, so the test lets them through. */
  predicate NullOrEmpty(v: JsValue) {
    match v
    case Undefined => true
    case Null => true
    case Str(s) => |s| < 1
    case Arr(items) => |items| < 1
    case _ => false
  }

  /** `Object.values(o).filter(Boolean).length` for an object whose values,
      in key order, are `vs`. */
  function CountTruthy(vs: seq<JsValue>): (n: nat)
    ensures n <= |vs|
  {
    if vs == [] then 0
    else (if Truthy(vs[0]) then 1 else 0) + CountTruthy(vs[1..])
  }

  /** The count is zero exactly when no value is truthy. */
  lemma {:induction false} CountTruthyZero(vs: seq<JsValue>)
    ensures CountTruthy(vs) == 0 <==> forall i :: 0 <= i < |vs| ==> !Truthy(vs[i])
  {
    if vs != [] {
      CountTruthyZero(vs[1..]);
      assert forall i :: 1 <= i < |vs| ==> vs[i] == vs[1..][i - 1];
    }
  }

  /** Nullish values are falsy, but not the other way round. */
  lemma NullishIsFalsy(v: JsValue)
    ensures IsNullish(v) ==> !Truthy(v)
    ensures !IsNullish(Str("")) && !Truthy(Str(""))
  {
  }

  /** For string values the creation test and the truthiness test agree;
      they differ on `0`, `false` and objects (accepted at creation, not
      truthy or truthy resp.) and on `[]` (refused at creation, truthy). */
  lemma NameChecksOnStrings(v: JsValue)
    ensures v.Str? ==> (!NullOrEmpty(v) <==> Truthy(v))
    ensures !NullOrEmpty(Num(0.0)) && !Truthy(Num(0.0))
    ensures !NullOrEmpty(Bool(false)) && !Truthy(Bool(false))
    ensures NullOrEmpty(Arr([])) && Truthy(Arr([]))
  {
  }
}
