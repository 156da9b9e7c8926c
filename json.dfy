/** JSON values as the handler sees them after `JSON.parse`, and the two
    JavaScript coercions the core relies on: truthiness and object spread. */
module JsonValues {

  /** A JSON value. Numbers are integers (floating point is not modelled). */
  datatype Json =
    | Null
    | Bool(b: bool)
    | Num(n: int)
    | Str(s: string)
    | Arr(items: seq<Json>)
    | Obj(props: map<string, Json>)

  /** JavaScript truthiness `!!v` of a present value (an absent key reads as
      `undefined`, which is falsy; callers check presence first). */
  predicate Truthy(j: Json) {
    match j
    case Null => false
    case Bool(b) => b
    case Num(n) => n != 0
    case Str(s) => s != ""
    case Arr(_) => true
    case Obj(_) => true
  }

  /** Decimal digits of `n`, as JavaScript writes an array index as a property key. */
  function DecimalString(n: nat): (r: string)
    ensures |r| > 0
    decreases n
  {
    var digit := "0123456789"[n % 10];
    if n < 10 then [digit] else DecimalString(n / 10) + [digit]
  }

  /** The own enumerable properties of an array (or of a string's characters):
      index `i` as key `DecimalString(i)`. This is what `{ ...value }` copies. */
  function IndexKeys(xs: seq<Json>): map<string, Json>
    decreases |xs|
  {
    if xs == [] then map[]
    else IndexKeys(xs[..|xs| - 1])[DecimalString(|xs| - 1) := xs[|xs| - 1]]
  }

  /** The characters of a string, each as a one-character string value. */
  function Chars(s: string): seq<Json> {
    seq(|s|, i requires 0 <= i < |s| => Str([s[i]]))
  }
}
