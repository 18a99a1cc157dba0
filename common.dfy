/** Value types shared by the whole model: optional values, results that carry
    an error message, and the three ways a key of a Python dictionary can look
    to `dict.get`. */
module Common {

  datatype Option<+T> = None | Some(value: T)

  /** The outcome of an operation that raises on failure; `Err` carries the
      message that the caller turns into an HTTP error detail. */
  datatype Result<+T> = Ok(value: T) | Err(message: string)

  /** One key of a record handed over by the extraction engine: absent,
      present with a JSON null, or present with a value. */
  datatype Field<+T> = Missing | Null | Value(v: T)

  /** `d.get(key)`: the value, or null when the key is absent or null. */
  function Get<T>(f: Field<T>): (r: Option<T>)
    ensures r.Some? <==> f.Value?
    ensures r.Some? ==> r.value == f.v
  {
    match f
    case Value(v) => Some(v)
    case _ => None
  }

  /** `d.get(key, default)`: the default replaces an ABSENT key only; a key
      that is present with a null value stays null. */
  function GetOr<T>(f: Field<T>, default: T): (r: Option<T>)
    ensures f.Missing? ==> r == Some(default)
    ensures f.Null? ==> r == None
    ensures f.Value? ==> r == Some(f.v)
  {
    match f
    case Missing => Some(default)
    case Null => None
    case Value(v) => Some(v)
  }

  /** The number a string of decimal digits spells. */
  function DigitsValue(s: string): nat
    requires forall i :: 0 <= i < |s| ==> '0' <= s[i] <= '9'
  {
    if s == [] then 0
    else 10 * DigitsValue(s[..|s| - 1]) + (s[|s| - 1] as int - '0' as int)
  }

  /** Python `str(n)` for a natural number: its decimal digits. */
  function NatToString(n: nat): (s: string)
    ensures |s| > 0
    ensures forall i :: 0 <= i < |s| ==> '0' <= s[i] <= '9'
    decreases n
  {
    if n < 10 then [Digit(n)] else NatToString(n / 10) + [Digit(n % 10)]
  }

  /** The digits of `NatToString(n)` spell n, with no leading zero. */
  lemma {:induction false} NatToStringValue(n: nat)
    ensures DigitsValue(NatToString(n)) == n
    ensures n > 0 ==> NatToString(n)[0] != '0'
    decreases n
  {
    if n >= 10 {
      NatToStringValue(n / 10);
      var s := NatToString(n);
      assert s[..|s| - 1] == NatToString(n / 10);
    }
  }

  function Digit(d: nat): (c: char)
    requires d < 10
    ensures '0' <= c <= '9'
    ensures c as int - '0' as int == d
  {
    ['0', '1', '2', '3', '4', '5', '6', '7', '8', '9'][d]
  }
}
