/** The resolved value of a resource property, and the few JavaScript
    operators the rules apply to such values.

    A property is read through the infrastructure framework's resolution
    functions, which are not part of this model: their outputs are what a
    `Value` records. `Unresolved` is a deploy-time reference that resolution
    could not turn into a primitive (for a name, the intrinsic object such
    as a `Ref`, whose template text is `[object Object]`); `Other` is any
    other resolved object or array. The two differ only where a rule
    compares a number: an unresolved period is taken to fail. Numbers
    are whole numbers (the properties the rules compare are counts of days
    or of receives). */
module Values {

  datatype Option<+T> = None | Some(value: T)

  datatype Value =
    | Undefined
    | Null
    | Unresolved
    | Bool(b: bool)
    | Num(n: int)
    | Str(s: string)
    | Other

  /** JavaScript's loose `v == undefined`, which `null` also satisfies. Such
      a value is falsy and strictly equal to no boolean. */
  predicate LooselyUndefined(v: Value)
    ensures LooselyUndefined(v) ==> !Truthy(v) && !StrictlyEquals(v, true) && !StrictlyEquals(v, false)
    ensures LooselyUndefined(v) <==> StrictlyUndefined(v) || v.Null?
  {
    v.Undefined? || v.Null?
  }

  /** JavaScript's strict `v === undefined`: `null` is not undefined here, so
      the strict test is the narrower one. */
  predicate StrictlyUndefined(v: Value)
    ensures v.Null? ==> !StrictlyUndefined(v)
    ensures StrictlyUndefined(v) ==> !Truthy(v)
  {
    v.Undefined?
  }

  /** JavaScript's strict `v === b` for a boolean `b`: no conversion, so only
      that boolean itself is equal, and the value's truthiness is `b`. */
  predicate StrictlyEquals(v: Value, b: bool)
    ensures StrictlyEquals(v, b) <==> v == Bool(b)
    ensures StrictlyEquals(v, b) ==> Truthy(v) == b
  {
    match v
    case Bool(x) => x == b
    case _ => false
  }

  /** JavaScript truthiness. An unresolved reference is an object, like
      every other object, and so is always truthy. */
  predicate Truthy(v: Value)
    ensures v.Undefined? || v.Null? ==> !Truthy(v)
    ensures v.Unresolved? || v.Other? ==> Truthy(v)
    ensures v.Num? ==> (Truthy(v) <==> v.n != 0)
    ensures v.Str? ==> (Truthy(v) <==> |v.s| > 0)
  {
    match v
    case Undefined => false
    case Null => false
    case Unresolved => true
    case Bool(b) => b
    case Num(n) => n != 0
    case Str(s) => s != ""
    case Other => true
  }

  /** `v < k` for a number `k`, as the model reads it. For `null`, booleans
      and numbers this is JavaScript's comparison after conversion to a
      number. `undefined` and objects convert to NaN, so the comparison is
      false. Two cases are the model's choice rather than JavaScript's:
      a string is taken to compare as NaN (JavaScript would convert a
      numeric string such as `"3"`, and the empty string, to a number), and
      an unresolved token is taken to compare as less than every bound. */
  predicate LessThan(v: Value, k: int)
    ensures v.Num? ==> (LessThan(v, k) <==> v.n < k)
    ensures v.Null? ==> (LessThan(v, k) <==> 0 < k)
    ensures v.Undefined? || v.Other? || v.Str? ==> !LessThan(v, k)
    ensures v.Unresolved? ==> LessThan(v, k)
  {
    match v
    case Undefined => false
    case Null => 0 < k
    case Unresolved => true
    case Bool(b) => (if b then 1 else 0) < k
    case Num(n) => n < k
    case Str(_) => false
    case Other => false
  }

  /** The decimal text of a whole number, as a template string renders it. */
  function DecimalText(n: int): (r: string)
    decreases if n < 0 then 1 - n else n
    ensures |r| > 0
    ensures forall k :: 0 <= k < |r| ==> r[k] == '-' || '0' <= r[k] <= '9'
  {
    if n < 0 then "-" + DecimalText(-n)
    else if n < 10 then [Digit(n)]
    else DecimalText(n / 10) + [Digit(n % 10)]
  }

  function Digit(d: int): (c: char)
    requires 0 <= d < 10
    ensures '0' <= c <= '9'
  {
    ['0', '1', '2', '3', '4', '5', '6', '7', '8', '9'][d]
  }

  /** The text a template string gives a primitive value, or None for a value
      that is undefined, null, a token or an object. */
  function PrimitiveText(v: Value): (r: Option<string>)
    ensures r.Some? <==> (v.Str? || v.Bool? || v.Num?)
    ensures v.Str? ==> r == Some(v.s)
  {
    match v
    case Str(s) => Some(s)
    case Bool(b) => Some(if b then "true" else "false")
    case Num(n) => Some(DecimalText(n))
    case _ => None
  }
}
