/**
 * Decoded JSON values as the Python code sees them (`dict`, `list`, `str`,
 * `int`, `bool`, `None`), together with the coercions `int(v)`, `str(v)`,
 * `int(v or 0)` and `str(v or "")` that the `from_dict` constructors apply
 * to them, and the text form of integers those coercions rely on.
 */
module Json {
  import opened Common

  datatype Json =
    | JNull
    | JBool(b: bool)
    | JInt(i: int)
    | JStr(s: string)
    | JList(items: seq<Json>)
    | JObj(fields: map<string, Json>)

  /** A JSON object as a Python `dict` with string keys. */
  type Dict = map<string, Json>

  /** Why a coercion raised: Python's TypeError or ValueError, or a value
      whose Python `str()` (its `repr` text) the model does not compute. */
  datatype CoerceError = TypeError | ValueError | NotModelled

  /** Python truthiness of a decoded JSON value. */
  predicate Truthy(v: Json) {
    match v
    case JNull => false
    case JBool(b) => b
    case JInt(i) => i != 0
    case JStr(s) => s != ""
    case JList(xs) => xs != []
    case JObj(m) => m != map[]
  }

  /** `d.get(k, default)`. */
  function Get(d: Dict, k: string, default: Json): (v: Json)
    ensures k in d ==> v == d[k]
    ensures k !in d ==> v == default
  {
    if k in d then d[k] else default
  }

  // ---------------------------------------------------------------------
  // Decimal text of integers, and Python's int(str)
  // ---------------------------------------------------------------------

  predicate IsDigit(c: char) { '0' <= c <= '9' }

  function DigitChar(d: nat): (c: char)
    requires d < 10
    ensures IsDigit(c) && c as int - '0' as int == d
  {
    ('0' as int + d) as char
  }

  /** Decimal digits of a natural number, most significant first, no leading zeros. */
  function Digits(n: nat): (s: string)
    ensures |s| >= 1
    ensures forall i :: 0 <= i < |s| ==> IsDigit(s[i])
    decreases n
  {
    if n < 10 then [DigitChar(n)] else Digits(n / 10) + [DigitChar(n % 10)]
  }

  /** Python's `str(n)` for an `int`. */
  function DecimalText(n: int): string {
    if n < 0 then "-" + Digits(-n) else Digits(n)
  }

  /** The characters Python's `int()` strips from both ends (ASCII whitespace). */
  predicate IsSpace(c: char) {
    c == ' ' || c == '\t' || c == '\n' || c == '\r' || c == '\U{B}' || c == '\U{C}'
  }

  function TrimStart(s: string): (r: string)
    ensures |r| <= |s| && r == s[|s| - |r|..]
    ensures r == [] || !IsSpace(r[0])
  {
    if s != [] && IsSpace(s[0]) then TrimStart(s[1..]) else s
  }

  function TrimEnd(s: string): (r: string)
    ensures |r| <= |s| && r == s[..|r|]
    ensures r == [] || !IsSpace(r[|r| - 1])
  {
    if s != [] && IsSpace(s[|s| - 1]) then TrimEnd(s[..|s| - 1]) else s
  }

  /** The body of an integer literal after the sign: digits, with single
      underscores allowed between two digits (`1_000`). */
  predicate WellFormedDigits(s: string) {
    && s != []
    && IsDigit(s[0])
    && IsDigit(s[|s| - 1])
    && (forall i :: 0 <= i < |s| ==> IsDigit(s[i]) || s[i] == '_')
    && (forall i :: 0 <= i < |s| - 1 ==> IsDigit(s[i]) || IsDigit(s[i + 1]))
  }

  /** Value of a digit string, underscores skipped. */
  function DigitsValue(s: string): nat
    requires forall i :: 0 <= i < |s| ==> IsDigit(s[i]) || s[i] == '_'
  {
    if s == [] then 0
    else if s[|s| - 1] == '_' then DigitsValue(s[..|s| - 1])
    else
      assert IsDigit(s[|s| - 1]);
      DigitsValue(s[..|s| - 1]) * 10 + (s[|s| - 1] as int - '0' as int)
  }

  /** An unsigned integer literal body, or `None`. */
  function ParseUnsigned(body: string): (r: Option<nat>)
    ensures r.Some? <==> WellFormedDigits(body)
  {
    if WellFormedDigits(body) then Some(DigitsValue(body)) else None
  }

  /** Python's `int(s)` on a `str`: surrounding whitespace stripped, an
      optional sign, then base-10 digits; `None` where Python raises ValueError. */
  function ParseInt(s: string): (r: Option<int>)
    ensures r.Some? ==> TrimEnd(TrimStart(s)) != []
  {
    ParseSigned(TrimEnd(TrimStart(s)))
  }

  function ParseSigned(t: string): (r: Option<int>)
    ensures r.Some? ==> t != []
  {
    if t == [] then None
    else if t[0] == '-' then
      (match ParseUnsigned(t[1..]) case Some(m) => Some(-(m as int)) case None => None)
    else if t[0] == '+' then
      (match ParseUnsigned(t[1..]) case Some(m) => Some(m as int) case None => None)
    else
      (match ParseUnsigned(t) case Some(m) => Some(m as int) case None => None)
  }

  lemma {:induction false} DigitsValueOfDigits(n: nat)
    ensures DigitsValue(Digits(n)) == n
    decreases n
  {
    if n >= 10 {
      var p := Digits(n / 10);
      var s := p + [DigitChar(n % 10)];
      assert s[..|s| - 1] == p;
      DigitsValueOfDigits(n / 10);
    }
  }

  lemma AllDigitsWellFormed(d: string)
    requires d != []
    requires forall i :: 0 <= i < |d| ==> IsDigit(d[i])
    ensures WellFormedDigits(d)
  {
    assert IsDigit(d[0]) && IsDigit(d[|d| - 1]);
  }

  lemma TrimNoop(t: string)
    requires t != [] && !IsSpace(t[0]) && !IsSpace(t[|t| - 1])
    ensures TrimEnd(TrimStart(t)) == t
  {
  }

  lemma ParseIntOfDigits(d: string)
    requires WellFormedDigits(d)
    ensures ParseInt(d) == Some(DigitsValue(d) as int)
  {
    TrimNoop(d);
    assert ParseUnsigned(d) == Some(DigitsValue(d));
  }

  lemma TrimNegatedDigits(d: string)
    requires WellFormedDigits(d)
    ensures TrimEnd(TrimStart("-" + d)) == "-" + d
  {
    var t := "-" + d;
    assert t[|t| - 1] == d[|d| - 1];
    TrimNoop(t);
  }

  lemma ParseSignedNegated(d: string)
    requires WellFormedDigits(d)
    ensures ParseSigned("-" + d) == Some(-(DigitsValue(d) as int))
  {
    var t := "-" + d;
    assert t[1..] == d;
    assert ParseUnsigned(d) == Some(DigitsValue(d));
  }

  lemma ParseIntOfNegatedDigits(d: string)
    requires WellFormedDigits(d)
    ensures ParseInt("-" + d) == Some(-(DigitsValue(d) as int))
  {
    TrimNegatedDigits(d);
    ParseSignedNegated(d);
  }

  /** `int(str(n)) == n`: the decimal text of every integer parses back to it. */
  lemma ParseIntOfDecimalText(n: int)
    ensures ParseInt(DecimalText(n)) == Some(n)
  {
    var m: nat := if n < 0 then -n else n;
    DigitsValueOfDigits(m);
    AllDigitsWellFormed(Digits(m));
    if n < 0 {
      ParseIntOfNegatedDigits(Digits(m));
    } else {
      ParseIntOfDigits(Digits(m));
    }
  }

  // ---------------------------------------------------------------------
  // Python coercions
  // ---------------------------------------------------------------------

  /** Python's `int(v)`. */
  function PyInt(v: Json): (r: Result<int, CoerceError>)
    ensures v.JInt? ==> r == Ok(v.i)
    ensures v.JNull? || v.JList? || v.JObj? ==> r == Err(TypeError)
  {
    match v
    case JNull => Err(TypeError)
    case JBool(b) => Ok(if b then 1 else 0)
    case JInt(i) => Ok(i)
    case JStr(s) => (match ParseInt(s) case Some(n) => Ok(n) case None => Err(ValueError))
    case JList(_) => Err(TypeError)
    case JObj(_) => Err(TypeError)
  }

  /** Python's `str(v)`; a list or dict renders as its `repr`, which the model
      does not compute. */
  function PyStr(v: Json): (r: Result<string, CoerceError>)
    ensures v.JStr? ==> r == Ok(v.s)
  {
    match v
    case JNull => Ok("None")
    case JBool(b) => Ok(if b then "True" else "False")
    case JInt(i) => Ok(DecimalText(i))
    case JStr(s) => Ok(s)
    case JList(_) => Err(NotModelled)
    case JObj(_) => Err(NotModelled)
  }

  /** `int(d.get(k, 0) or 0)`. */
  function IntField(d: Dict, k: string): (r: Result<int, CoerceError>)
    ensures k !in d ==> r == Ok(0)
    ensures k in d && d[k].JInt? ==> r == Ok(d[k].i)
  {
    var v := Get(d, k, JInt(0));
    if Truthy(v) then PyInt(v) else Ok(0)
  }

  /** `str(d.get(k, "") or "")`. */
  function StrField(d: Dict, k: string): (r: Result<string, CoerceError>)
    ensures k !in d ==> r == Ok("")
    ensures k in d && d[k].JStr? ==> r == Ok(d[k].s)
  {
    var v := Get(d, k, JStr(""));
    if Truthy(v) then PyStr(v) else Ok("")
  }
}
