/** The untyped JavaScript values that reach the store from `localStorage`,
    from import files and from extension storage, and the few operations the
    code applies to them: truthiness, `typeof` tests and `String(value)`. */
module Values {

  /** A parsed JSON value or `undefined`. Only integral numbers are modelled;
      the contents of non-array objects are not looked into (`Obj`). */
  datatype Value =
    | Undefined
    | Null
    | Bool(b: bool)
    | Num(n: int)
    | Str(s: string)
    | Arr(elems: seq<Value>)
    | Obj

  /** `Boolean(v)`. */
  predicate Truthy(v: Value)
    ensures v.Undefined? || v.Null? ==> !Truthy(v)
    ensures v.Arr? || v.Obj? ==> Truthy(v)
  {
    match v
    case Undefined => false
    case Null => false
    case Bool(b) => b
    case Num(n) => n != 0
    case Str(s) => s != []
    case Arr(_) => true
    case Obj => true
  }

  /** Decimal digits of a natural number. */
  function NatToString(n: nat): (r: string)
    ensures |r| > 0
  {
    var d := ['0', '1', '2', '3', '4', '5', '6', '7', '8', '9'][n % 10];
    if n < 10 then [d] else NatToString(n / 10) + [d]
  }

  /** `String(v)`: an array is joined with commas, `null` and `undefined`
      elements becoming empty. */
  function ToStr(v: Value): (r: string)
    ensures v.Str? ==> r == v.s
    ensures v.Num? || v.Bool? || v.Undefined? || v.Null? || v.Obj? ==> r != []
    decreases v, 1
  {
    match v
    case Undefined => "undefined"
    case Null => "null"
    case Bool(b) => if b then "true" else "false"
    case Num(n) => if n < 0 then "-" + NatToString(-n) else NatToString(n)
    case Str(s) => s
    case Arr(elems) => JoinElems(v, elems)
    case Obj => "[object Object]"
  }

  /** The comma-joined `String` forms of the elements of the array `whole`. */
  function JoinElems(whole: Value, elems: seq<Value>): string
    requires forall e :: e in elems ==> e < whole
    decreases whole, 0, |elems|
  {
    if elems == [] then ""
    else
      assert elems[0] in elems;
      assert forall e :: e in elems[1..] ==> e in elems;
      var first := if elems[0].Undefined? || elems[0].Null? then "" else ToStr(elems[0]);
      if |elems| == 1 then first else first + "," + JoinElems(whole, elems[1..])
  }

  /** One element of a stored or imported array of snippets: the fields the
      code reads, each `Undefined` when absent. An element that is not an
      object reads as `Empty`. */
  datatype RawRecord = RawRecord(
    id: Value,
    content: Value,
    description: Value,
    title: Value,
    tags: Value,
    channels: Value,
    channel: Value)

  const Empty := RawRecord(Undefined, Undefined, Undefined, Undefined, Undefined, Undefined, Undefined)
}
