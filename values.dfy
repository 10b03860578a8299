/**
 * JavaScript values as the synchronizer stores and ships them: scalar column
 * values, rows (objects of column name to value), truthiness, the string
 * conversion that `+` applies when SQL text is assembled, and the
 * callback outcomes every store operation reports.
 */
module Values {

  datatype Option<+T> = None | Some(value: T) {
    function GetOr(default: T): T {
      match this
      case Some(v) => v
      case None => default
    }
  }

  /** Result of a step that either produces a value or an error message. */
  datatype Result<+T> = Ok(value: T) | Err(message: string)

  /**
   * What a callback-style operation reports: `callback(null, value)`,
   * `callback(error, null)` (the value is always nulled on error), or no
   * call at all (the zero-rows-affected paths only log a warning).
   */
  datatype Outcome<+T> = Success(value: T) | Failure(message: string) | NoCallback

  /** A scalar column value. */
  datatype Value = Null | Bool(b: bool) | Int(i: int) | Str(s: string)

  /** An opaque handle of a database or transaction the host environment opened. */
  type Handle = nat

  /** A row: column name to value; a key that is absent stands for `undefined`. */
  type Row = map<string, Value>

  /** JavaScript truthiness of a value (`!v` is its negation). */
  predicate Truthy(v: Value) {
    match v
    case Null => false
    case Bool(b) => b
    case Int(i) => i != 0
    case Str(s) => s != ""
  }

  /** `row[key]`, with `None` for `undefined`. */
  function Field(row: Row, key: string): (r: Option<Value>)
    ensures r.Some? <==> key in row
    ensures r.Some? ==> r.value == row[key]
  {
    if key in row then Some(row[key]) else None
  }

  /** `!!row[key]` */
  predicate TruthyField(row: Row, key: string) {
    key in row && Truthy(row[key])
  }

  /** `row[key] = v`; assigning `undefined` leaves the key absent. */
  function WithField(row: Row, key: string, v: Option<Value>): (r: Row)
    ensures key in r <==> v.Some?
    ensures v.Some? ==> r[key] == v.value
    ensures forall k :: k != key ==> (k in r <==> k in row)
    ensures forall k :: k != key && k in row ==> r[k] == row[k]
  {
    match v
    case None => row - {key}
    case Some(x) => row[key := x]
  }

  /** The value a query parameter binds to: `undefined` binds as SQL NULL. */
  function Bind(v: Option<Value>): Value {
    v.GetOr(Null)
  }

  function Digit(d: nat): char
    requires d < 10
  {
    "0123456789"[d]
  }

  function NatString(n: nat): (s: string)
    ensures |s| >= 1
    decreases n
  {
    if n < 10 then [Digit(n)] else NatString(n / 10) + [Digit(n % 10)]
  }

  /** `"" + i` for an integer number. */
  function DecimalString(i: int): string {
    if i < 0 then "-" + NatString(-i) else NatString(i)
  }

  /** `"" + v`, the conversion string concatenation applies. */
  function Stringify(v: Option<Value>): string {
    match v
    case None => "undefined"
    case Some(Null) => "null"
    case Some(Bool(b)) => if b then "true" else "false"
    case Some(Int(i)) => DecimalString(i)
    case Some(Str(s)) => s
  }
}
