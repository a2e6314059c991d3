/**
 * Decoded JSON values as the repository's Python code sees them after `json.load`:
 * `None`, `bool`, `int`, `str`, `list` and `dict`. Floats are not modelled.
 */
module Json {
  import opened Wrappers

  datatype Json =
    | JNull
    | JBool(b: bool)
    | JInt(i: int)
    | JString(s: string)
    | JArray(items: seq<Json>)
    | JObject(fields: map<string, Json>)

  /** A JSON object: the documents stored by the repositories. */
  type Document = map<string, Json>

  /** Python truthiness: `None`, `False`, `0`, `''`, `[]` and `{}` are false. */
  predicate Truthy(j: Json) {
    match j
    case JNull => false
    case JBool(b) => b
    case JInt(i) => i != 0
    case JString(s) => |s| > 0
    case JArray(xs) => |xs| > 0
    case JObject(m) => |m| > 0
  }

  /** `d.get(k)`: a missing key reads as `None`. */
  function Get(d: Document, k: string): Json {
    if k in d then d[k] else JNull
  }

  /** The integer Python's `==` gives a `bool` or an `int` (`True == 1`, `False == 0`). */
  function NumberOf(j: Json): Option<int> {
    match j
    case JBool(b) => Some(if b then 1 else 0)
    case JInt(i) => Some(i)
    case _ => None
  }

  /** Python's `==` on decoded JSON values: structural, except that booleans equal the integers 1 and 0. */
  function PyEq(a: Json, b: Json): (r: bool)
    ensures r ==> (a.JNull? <==> b.JNull?) && (a.JString? <==> b.JString?)
    ensures r ==> (a.JArray? <==> b.JArray?) && (a.JObject? <==> b.JObject?)
    ensures a.JNull? || b.JNull? || a.JString? || b.JString? ==> (r <==> a == b)
    ensures (a.JBool? && b.JBool?) || (a.JInt? && b.JInt?) ==> (r <==> a == b)
    ensures a.JBool? && b.JInt? ==> (r <==> b.i == (if a.b then 1 else 0))
  {
    if NumberOf(a).Some? || NumberOf(b).Some? then NumberOf(a) == NumberOf(b)
    else
      match (a, b)
      case (JNull, JNull) => true
      case (JString(x), JString(y)) => x == y
      case (JArray(xs), JArray(ys)) =>
        |xs| == |ys| && forall i :: 0 <= i < |xs| ==> PyEq(xs[i], ys[i])
      case (JObject(m), JObject(n)) =>
        m.Keys == n.Keys && forall k :: k in m ==> PyEq(m[k], n[k])
      case _ => false
  }

  /** Every value equals itself. */
  lemma {:induction false} PyEqReflexive(a: Json)
    ensures PyEq(a, a)
  {
    match a
    case JArray(xs) =>
      forall i | 0 <= i < |xs| ensures PyEq(xs[i], xs[i]) { PyEqReflexive(xs[i]); }
    case JObject(m) =>
      forall k | k in m ensures PyEq(m[k], m[k]) { PyEqReflexive(m[k]); }
    case _ =>
  }

  /** Python's `==` on JSON values is symmetric. */
  lemma {:induction false} PyEqSymmetric(a: Json, b: Json)
    ensures PyEq(a, b) == PyEq(b, a)
  {
    if NumberOf(a).None? && NumberOf(b).None? {
      match (a, b)
      case (JArray(xs), JArray(ys)) =>
        if |xs| == |ys| {
          forall i | 0 <= i < |xs| ensures PyEq(xs[i], ys[i]) == PyEq(ys[i], xs[i]) {
            PyEqSymmetric(xs[i], ys[i]);
          }
        }
      case (JObject(m), JObject(n)) =>
        if m.Keys == n.Keys {
          forall k | k in m ensures PyEq(m[k], n[k]) == PyEq(n[k], m[k]) {
            PyEqSymmetric(m[k], n[k]);
          }
        }
      case _ =>
    }
  }

  /** No boolean occurs anywhere inside `j`. */
  predicate BoolFree(j: Json) {
    match j
    case JBool(_) => false
    case JArray(xs) => forall i :: 0 <= i < |xs| ==> BoolFree(xs[i])
    case JObject(m) => forall k :: k in m ==> BoolFree(m[k])
    case _ => true
  }

  /** Without booleans, Python's `==` is exactly structural equality. */
  lemma PyEqIsEqualityWithoutBools(a: Json, b: Json)
    requires BoolFree(a) && BoolFree(b)
    ensures PyEq(a, b) <==> a == b
  {
    if PyEq(a, b) {
      PyEqWithoutBoolsIsEqual(a, b);
    }
    if a == b {
      PyEqReflexive(a);
    }
  }

  lemma {:induction false} PyEqWithoutBoolsIsEqual(a: Json, b: Json)
    requires BoolFree(a) && BoolFree(b)
    requires PyEq(a, b)
    ensures a == b
  {
    match (a, b)
    case (JArray(xs), JArray(ys)) =>
      forall i | 0 <= i < |xs| ensures xs[i] == ys[i] {
        PyEqWithoutBoolsIsEqual(xs[i], ys[i]);
      }
    case (JObject(m), JObject(n)) =>
      forall k | k in m ensures m[k] == n[k] {
        PyEqWithoutBoolsIsEqual(m[k], n[k]);
      }
    case _ =>
  }

  /** Python compares `True == 1`: the two values differ as data but are equal to `==`. */
  lemma TrueEqualsOne()
    ensures JBool(true) != JInt(1) && PyEq(JBool(true), JInt(1))
  {
  }

  /** Decimal digits of a natural number, most significant first. */
  function NatToDecimal(n: nat): (r: string)
    ensures |r| > 0
    ensures forall i :: 0 <= i < |r| ==> '0' <= r[i] <= '9'
    decreases n
  {
    if n < 10 then [DigitChar(n)] else NatToDecimal(n / 10) + [DigitChar(n % 10)]
  }

  function DigitChar(d: nat): (c: char)
    requires d < 10
  {
    ('0' as int + d) as char
  }

  /** The number a string of decimal digits denotes. */
  function DecimalValue(s: string): nat
    requires forall i :: 0 <= i < |s| ==> '0' <= s[i] <= '9'
  {
    if |s| == 0 then 0 else 10 * DecimalValue(s[..|s| - 1]) + (s[|s| - 1] as int - '0' as int)
  }

  /** Reading back the decimal rendering of `n` gives `n`. */
  lemma {:induction false} DecimalRoundTrip(n: nat)
    ensures DecimalValue(NatToDecimal(n)) == n
  {
    if n >= 10 {
      var r := NatToDecimal(n);
      assert r[..|r| - 1] == NatToDecimal(n / 10);
      DecimalRoundTrip(n / 10);
    }
  }

  /** Python's `str(i)` of an integer. */
  function IntToDecimal(i: int): string {
    if i < 0 then "-" + NatToDecimal(-i) else NatToDecimal(i)
  }

  /** Python's `str(x)` of a scalar JSON value; lists and dicts have no rendering in this model. */
  function PyStr(j: Json): (r: Option<string>)
    ensures r.Some? <==> !j.JArray? && !j.JObject?
    ensures j.JString? ==> r == Some(j.s)
  {
    match j
    case JNull => Some("None")
    case JBool(b) => Some(if b then "True" else "False")
    case JInt(i) => Some(IntToDecimal(i))
    case JString(s) => Some(s)
    case _ => None
  }

  /** Distinct integers render differently, so a file name identifies its integer identifier. */
  lemma IntToDecimalInjective(i: int, j: int)
    requires IntToDecimal(i) == IntToDecimal(j)
    ensures i == j
  {
    DecimalSign(i);
    DecimalSign(j);
    assert i < 0 <==> j < 0;
    if i < 0 {
      NegativeDecimal(i);
      NegativeDecimal(j);
      NatToDecimalInjective(-i, -j);
    } else {
      NatToDecimalInjective(i, j);
    }
  }

  /** Distinct natural numbers have distinct decimal renderings. */
  lemma NatToDecimalInjective(m: nat, n: nat)
    requires NatToDecimal(m) == NatToDecimal(n)
    ensures m == n
  {
    DecimalRoundTrip(m);
    DecimalRoundTrip(n);
  }

  lemma NegativeDecimal(i: int)
    requires i < 0
    ensures IntToDecimal(i)[1..] == NatToDecimal(-i)
  {
  }

  /** The rendering starts with `-` exactly for negative numbers. */
  lemma DecimalSign(i: int)
    ensures |IntToDecimal(i)| > 0
    ensures IntToDecimal(i)[0] == '-' <==> i < 0
  {
    if i >= 0 {
      var r := NatToDecimal(i);
      assert '0' <= r[0] <= '9';
    }
  }
}
