/**
 * Decoded JSON request fields and the Python coercions the handlers apply to them:
 * `int(x)`, `float(x)`, and the numeric value seen by a comparison `x > 0`.
 */
module Json {
  import opened Basics
  import opened Text

  /**
   * A value as Python's `json` module hands it over (floats have no NaN or infinities here).
   * An `Object` is a decoded dict with its fields in insertion order. Its keys are distinct:
   * the decoder keeps only the last value of a repeated key, so a `fields` sequence that repeats
   * a key stands for no dict a handler can receive.
   */
  datatype Value =
    | Null
    | Bool(b: bool)
    | Int(i: int)
    | Float(f: real)
    | Str(s: string)
    | List(items: seq<Value>)
    | Object(fields: seq<(string, Value)>)

  /** Python's `int(x)` on a float: the integer part, rounding toward zero. */
  function Truncate(x: real): (n: int)
    ensures 0.0 <= x ==> 0 <= n && n as real <= x < n as real + 1.0
    ensures x < 0.0 ==> n <= 0 && n as real - 1.0 < x <= n as real
  {
    if x >= 0.0 then x.Floor else -((-x).Floor)
  }

  /**
   * Python's `int(v)`: booleans count as 0 and 1, floats truncate, strings must hold an
   * integer literal; `None`, lists and dicts raise.
   */
  function ToInt(v: Value): (r: Option<int>)
    ensures v.Null? || v.List? || v.Object? ==> r.None?
    ensures v.Int? ==> r == Some(v.i)
    ensures v.Float? ==> r.Some? && (v.f < 0.0 ==> v.f <= r.value as real) && (0.0 <= v.f ==> r.value as real <= v.f)
  {
    match v
    case Bool(b) => Some(if b then 1 else 0)
    case Int(i) => Some(i)
    case Float(f) => Some(Truncate(f))
    case Str(s) => ParseInt(s)
    case _ => None
  }

  /**
   * Python's `float(v)`: booleans count as 0.0 and 1.0, numbers convert exactly, strings must
   * hold a decimal literal; `None`, lists and dicts raise.
   */
  function ToFloat(v: Value): (r: Option<real>)
    ensures v.Null? || v.List? || v.Object? ==> r.None?
    ensures v.Int? ==> r == Some(v.i as real)
    ensures v.Float? ==> r == Some(v.f)
  {
    match v
    case Bool(b) => Some(if b then 1.0 else 0.0)
    case Int(i) => Some(i as real)
    case Float(f) => Some(f)
    case Str(s) => ParseDecimal(s)
    case _ => None
  }

  /**
   * The number Python compares when it evaluates `v > 0`; `None` for values where that
   * comparison raises `TypeError` (strings, lists, dicts, `None`).
   */
  function Number(v: Value): (r: Option<real>)
    ensures r.Some? <==> v.Bool? || v.Int? || v.Float?
    ensures r.Some? ==> ToFloat(v) == r
  {
    match v
    case Bool(b) => Some(if b then 1.0 else 0.0)
    case Int(i) => Some(i as real)
    case Float(f) => Some(f)
    case _ => None
  }

  /**
   * Whatever `int()` accepts, `float()` accepts too, and `int(v) == int(float(v))`:
   * the two coercions agree on every value.
   */
  lemma ToIntAgreesWithToFloat(v: Value)
    requires ToInt(v).Some?
    ensures ToFloat(v).Some?
    ensures ToInt(v).value == Truncate(ToFloat(v).value)
  {
    if v.Str? {
      ParseDecimalExtendsParseInt(v.s);
    }
  }

  /** `int()` on sample values: padded digits parse, floats truncate toward zero, words and `None` raise. */
  lemma ToIntSamples()
    ensures ToInt(Int(5)) == Some(5)
    ensures ToInt(Str(" 5 ")) == Some(5)
    ensures ToInt(Float(-2.5)) == Some(-2)
    ensures ToInt(Str("high")) == None
    ensures ToInt(Null) == None
  {
    ParsePaddedFive();
    ParseRefusesWord();
    assert (2.5).Floor == 2;
  }

  /** An integer sent as its decimal text coerces back to that integer. */
  lemma ToIntReadsShownInt(n: int)
    ensures ToInt(Str(ShowInt(n))) == Some(n)
    ensures ToFloat(Str(ShowInt(n))) == Some(n as real)
  {
    ParseShowInt(n);
    ParseDecimalExtendsParseInt(ShowInt(n));
  }

  // ---------------------------------------------------------------------------
  // Reading request fields
  // ---------------------------------------------------------------------------

  /** A request field that was required but not sent, or sent but refused by its coercion. */
  datatype FieldError = MissingField(name: string) | InvalidField(name: string)

  /** `float(j[name])`: a missing key and an uncoercible value are both refused, differently. */
  function RequiredFloat(v: Option<Value>, name: string): (r: Result<real, FieldError>)
    ensures v.None? ==> r == Err(MissingField(name))
    ensures v.Some? ==> (r.Ok? <==> ToFloat(v.value).Some?)
    ensures r.Ok? ==> Some(r.value) == ToFloat(v.value)
    ensures r.Err? && v.Some? ==> r.error == InvalidField(name)
  {
    match v
    case None => Err(MissingField(name))
    case Some(x) =>
      match ToFloat(x)
      case Some(f) => Ok(f)
      case None => Err(InvalidField(name))
  }

  /**
   * `float(j[name])` guarded by `name in j`: `None` when the key was not sent, the coerced
   * value when it was, and a refusal when `float()` raises (on `null` too).
   */
  function OptionalFloat(v: Option<Value>, name: string): (r: Result<Option<real>, FieldError>)
    ensures v.None? ==> r == Ok(None)
    ensures v.Some? ==> (r.Ok? <==> ToFloat(v.value).Some?)
    ensures v.Some? && r.Ok? ==> r.value == ToFloat(v.value)
    ensures r.Err? ==> r.error == InvalidField(name)
  {
    match v
    case None => Ok(None)
    case Some(x) =>
      match ToFloat(x)
      case Some(f) => Ok(Some(f))
      case None => Err(InvalidField(name))
  }
}
