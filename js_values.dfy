/**
 * The runtime values that flow between the application and the database
 * driver, seen through the JavaScript type tests the connection applies
 * (`typeof`, `instanceof Date`, `Number.isInteger`, `Number.isSafeInteger`).
 */
module JsValues {

  /** A JavaScript number. Finite values are kept as exact reals; double
      rounding is left to the host functions of `JsHost`. */
  datatype JsNumber = Finite(x: real) | NaN | PositiveInfinity | NegativeInfinity

  /** A JavaScript `Date` object. `valid` is `!isNaN(d.getTime())`; the other
      fields are the local-time getters, meaningful only when `valid`. */
  datatype JsDate = JsDate(valid: bool, hours: nat, minutes: nat, seconds: nat, milliseconds: nat)

  /** A raw value as received from the driver or handed over by the application. */
  datatype Value =
    | Undefined
    | Null
    | Bool(b: bool)
    | Num(n: JsNumber)
    | BigInt(i: int)
    | Str(s: string)
    | DateV(d: JsDate)
    | Other(id: nat)          // any other object, array, symbol or function

  /** `Number.MAX_SAFE_INTEGER`, that is 2^53 - 1. */
  const MaxSafeInteger: int := 0x1F_FFFF_FFFF_FFFF

  /** `Number.isInteger(n)`. */
  predicate IsInteger(n: JsNumber) {
    n.Finite? && n.x.Floor as real == n.x
  }

  /** An integer that `Number.isSafeInteger` accepts once it is a number. */
  predicate SafeInteger(i: int) {
    -MaxSafeInteger <= i <= MaxSafeInteger
  }

  /** `Number.isSafeInteger(n)`. */
  predicate IsSafeInteger(n: JsNumber) {
    IsInteger(n) && SafeInteger(n.x.Floor)
  }

  /** `!!n` for a number: false exactly for 0, -0 and NaN. */
  predicate Truthy(n: JsNumber) {
    match n
    case Finite(x) => x != 0.0
    case NaN => false
    case _ => true
  }

  /** `value instanceof Date && !isNaN(value.getTime())`. */
  predicate IsValidDate(v: Value) {
    v.DateV? && v.d.valid
  }

  /** The local time of day of a valid date lies in its natural ranges, as
      the `Date` getters guarantee. */
  predicate TimeOfDayInRange(d: JsDate) {
    d.hours < 24 && d.minutes < 60 && d.seconds < 60 && d.milliseconds < 1000
  }

  /**
   * The JavaScript built-ins whose exact results the model does not compute:
   * unary `+` on a string, `n + ''` on a number, `Number(b)` on a bigint,
   * `new Date(text)` and the local-date normalisation `Date.UTC(y, m, d)`
   * followed by `setUTCMinutes(600)`.
   */
  datatype JsHost = JsHost(
    unaryPlus: string -> JsNumber,
    numberToString: JsNumber -> string,
    numberOfBigInt: int -> JsNumber,
    parseDate: string -> JsDate,
    localDateOf: JsDate -> JsDate)

  /** What the model relies on about the host: `Number(b)` is exact on safe
      integers and never a safe integer outside that range (rounding to the
      nearest double is monotonic and 2^53 is a double), and normalising an
      invalid date to a local date gives an invalid date (`Date.UTC` of NaN
      fields is NaN). */
  ghost predicate HostFacts(host: JsHost) {
    && (forall b: int ::
          && (SafeInteger(b) ==> host.numberOfBigInt(b) == Finite(b as real))
          && (!SafeInteger(b) ==> !IsSafeInteger(host.numberOfBigInt(b))))
    && (forall d: JsDate :: !d.valid ==> !host.localDateOf(d).valid)
  }

  /** Under `HostFacts`, `Number.isSafeInteger(Number(b))` holds exactly for safe `b`. */
  lemma BigIntSafety(host: JsHost, b: int)
    requires HostFacts(host)
    ensures IsSafeInteger(host.numberOfBigInt(b)) <==> SafeInteger(b)
    ensures SafeInteger(b) ==> host.numberOfBigInt(b) == Finite(b as real)
  {
    var n := host.numberOfBigInt(b);
    if SafeInteger(b) {
      assert n == Finite(b as real);
      assert (b as real).Floor == b;
    }
  }
}
