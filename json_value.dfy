/** JSON values as the Python side sees them after `json.loads`, and the few
    Python operations the core applies to them: truthiness, `dict.get`,
    numeric coercion (`bool` is an `int` in Python), `==` between values and
    `int()` on a float. */
module JsonValue {

  datatype Option<+T> = None | Some(value: T)

  /** A decoded JSON value. Python's `json.loads` yields `int` for integer
      literals and `float` for the others, so the two are kept apart. */
  datatype Json =
    | JNull
    | JBool(b: bool)
    | JInt(i: int)
    | JFloat(f: real)
    | JStr(s: string)
    | JArr(items: seq<Json>)
    | JObj(fields: map<string, Json>)

  /** A JSON object, that is, a Python `dict` with string keys. */
  type Obj = map<string, Json>

  /** Python truthiness: `None`, `False`, zero, `""`, `[]` and `{}` are falsy. */
  predicate Truthy(j: Json) {
    match j
    case JNull => false
    case JBool(b) => b
    case JInt(i) => i != 0
    case JFloat(f) => f != 0.0
    case JStr(s) => s != ""
    case JArr(a) => a != []
    case JObj(o) => o != map[]
  }

  /** `d.get(key)`: a missing key reads as `None`. */
  function Get(d: Obj, key: string): (r: Json)
    ensures key !in d ==> r == JNull
    ensures key in d ==> r == d[key]
  {
    if key in d then d[key] else JNull
  }

  /** `d.get(key, default)`. */
  function GetOr(d: Obj, key: string, default: Json): (r: Json)
    ensures key !in d ==> r == default
    ensures key in d ==> r == d[key]
  {
    if key in d then d[key] else default
  }

  /** The value a number-like JSON value has in Python arithmetic and
      comparisons; `None` for the values that make those raise `TypeError`. */
  function Numeric(j: Json): (r: Option<real>)
    ensures r.Some? <==> (j.JBool? || j.JInt? || j.JFloat?)
  {
    match j
    case JBool(b) => Some(if b then 1.0 else 0.0)
    case JInt(i) => Some(i as real)
    case JFloat(f) => Some(f)
    case _ => None
  }

  /** The value of an integer-like JSON value (`int` or `bool`). */
  function Integral(j: Json): (r: Option<int>)
    ensures r.Some? <==> (j.JBool? || j.JInt?)
    ensures r.Some? ==> Numeric(j) == Some(r.value as real)
  {
    match j
    case JBool(b) => Some(if b then 1 else 0)
    case JInt(i) => Some(i)
    case _ => None
  }

  /** Python `==` between two decoded JSON values: numbers and booleans compare
      by value (`True == 1 == 1.0`), containers compare element by element. */
  predicate PyEq(x: Json, y: Json)
    decreases x
  {
    match x
    case JArr(a) =>
      y.JArr? && |a| == |y.items| && forall i :: 0 <= i < |a| ==> PyEq(a[i], y.items[i])
    case JObj(o) =>
      y.JObj? && o.Keys == y.fields.Keys && forall k :: k in o ==> PyEq(o[k], y.fields[k])
    case _ =>
      if Numeric(x).Some? || Numeric(y).Some? then Numeric(x).Some? && Numeric(x) == Numeric(y)
      else x == y
  }

  /** Python `int(v)` on a float: truncation toward zero. */
  function Trunc(r: real): (n: int)
    ensures r >= 0.0 ==> n as real <= r < n as real + 1.0
    ensures r < 0.0 ==> n as real - 1.0 < r <= n as real
  {
    if r >= 0.0 then r.Floor else -((-r).Floor)
  }

  /** `int(v * n)`: a fraction of a size, truncated to a pixel. */
  function Scale(v: real, n: int): int {
    Trunc(v * n as real)
  }

  /** `int()` is monotone. */
  lemma TruncMonotone(a: real, b: real)
    requires a <= b
    ensures Trunc(a) <= Trunc(b)
  {
  }

  /** `int(m * n)` for a fraction m of a non-negative size n lies between
      zero and the size. */
  lemma ScaleUnit(m: real, n: int)
    ensures 0.0 <= m <= 1.0 && n >= 0 ==> 0 <= Trunc(m * n as real) <= n
  {
    if 0.0 <= m <= 1.0 && n >= 0 {
      assert (n as real) - m * n as real == (1.0 - m) * n as real;
      assert 0.0 <= (1.0 - m) * n as real;
    }
  }

  /** The same bound, stated on `Scale`. */
  lemma ScaleBounds(m: real, n: int)
    ensures 0.0 <= m <= 1.0 && n >= 0 ==> 0 <= Scale(m, n) <= n
  {
    ScaleUnit(m, n);
  }

  /** Scaling by a non-negative size and truncating keeps the order of two
      values. */
  lemma ScaleMonotone(a: real, b: real, n: int)
    requires a <= b && n >= 0
    ensures a * n as real <= b * n as real
    ensures Trunc(a * n as real) <= Trunc(b * n as real)
  {
    var x := n as real;
    MulMonotone(a, b, x);
    TruncMonotone(a * x, b * x);
  }

  lemma MulMonotone(a: real, b: real, x: real)
    requires a <= b && x >= 0.0
    ensures a * x <= b * x
  {
  }

  /** A value between two others stays between them once scaled by a
      non-negative size and truncated. */
  lemma ScaleBetween(a: real, m: real, b: real, n: int)
    ensures a <= m <= b && n >= 0 ==> Trunc(a * n as real) <= Trunc(m * n as real) <= Trunc(b * n as real)
  {
    if a <= m <= b && n >= 0 {
      ScaleMonotone(a, m, n);
      ScaleMonotone(m, b, n);
    }
  }

  /** Python `max(lo, min(v, hi))`. */
  function Clamp(v: int, lo: int, hi: int): (r: int)
    ensures r >= lo
    ensures lo <= hi ==> r <= hi
    ensures lo <= v <= hi ==> r == v
    ensures v < lo ==> r == lo
    ensures lo <= hi < v ==> r == hi
  {
    var m := if v < hi then v else hi;
    if lo > m then lo else m
  }

  /** Decimal text of a natural number, as Python's `str(n)`: digits without
      a leading zero whose decimal value is n. */
  function NatToString(n: nat): (s: string)
    ensures |s| >= 1
    ensures forall i :: 0 <= i < |s| ==> '0' <= s[i] <= '9'
    ensures |s| > 1 ==> s[0] != '0'
    ensures DecimalValue(s) == n
  {
    if n < 10 then
      var s := [DigitChar(n)];
      assert s[..0] == [];
      s
    else
      var init := NatToString(n / 10);
      var s := init + [DigitChar(n % 10)];
      assert s[..|s| - 1] == init;
      s
  }

  /** The character of a decimal digit. */
  function DigitChar(d: nat): (c: char)
    requires d < 10
    ensures '0' <= c <= '9'
    ensures c as int - '0' as int == d
  {
    ('0' as int + d) as char
  }

  /** The number a string of decimal digits denotes, as `int(s)` reads it. */
  function DecimalValue(s: string): int
  {
    if s == [] then 0 else 10 * DecimalValue(s[..|s| - 1]) + (s[|s| - 1] as int - '0' as int)
  }
}
