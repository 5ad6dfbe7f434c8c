/** PHP's untyped (`mixed`) values as far as this library inspects them, and
    the string conversion PHP applies when it compares array elements. */
module PhpValues {

  /** A PHP value. Arrays are lists here: the library only ever looks at
      their elements in order. */
  datatype Value = Null | Bool(b: bool) | Int(i: int) | Str(s: string) | Arr(items: seq<Value>)

  function DigitChar(d: nat): (c: char)
    requires d < 10
    ensures '0' <= c <= '9'
  {
    "0123456789"[d]
  }

  /** Decimal digits of a natural number, most significant first. */
  function Digits(n: nat): (s: string)
    ensures |s| > 0
    ensures forall i :: 0 <= i < |s| ==> '0' <= s[i] <= '9'
  {
    if n < 10 then [DigitChar(n)] else Digits(n / 10) + [DigitChar(n % 10)]
  }

  /** PHP's `(string)` cast: null and false give "", true gives "1", an
      integer its decimal form, an array the word "Array". */
  function StringCast(v: Value): string {
    match v
    case Null => ""
    case Bool(b) => if b then "1" else ""
    case Int(i) => if i < 0 then "-" + Digits(-i) else Digits(i)
    case Str(s) => s
    case Arr(_) => "Array"
  }

  /** PHP's `(array)` cast of a value: null gives the empty array, an array
      stays as it is, and any other value becomes a one-element array. */
  function ArrayCast(v: Value): (r: seq<Value>)
    ensures v.Null? ==> r == []
    ensures v.Arr? ==> r == v.items
    ensures !v.Null? && !v.Arr? ==> r == [v]
  {
    match v
    case Null => []
    case Arr(items) => items
    case _ => [v]
  }
}
