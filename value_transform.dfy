/**
 * The default value transforms of a connection: `transformValueFromDB`
 * (lenient: what the driver returns is coerced where it can be) and
 * `transformValueToDB` (strict: the application must hand over the exact
 * runtime kind). Both first apply one absence rule, then switch on the
 * logical type name; a type name they do not know passes the value through.
 */
module ValueTransform {
  import opened Wrappers
  import opened JsValues
  import opened DecimalText
  import opened LocalTimeFormat

  datatype Direction = FromDB | ToDB

  /** The errors the transforms throw. */
  datatype TransformError =
    | InvalidValue(direction: Direction, typeName: string, value: Value)
    | PrecisionLost(bigint: int)

  /** The logical type names the transforms switch on; any other name
      (`enum`, `custom`, `customComparable`, a custom type name) is `UnknownTag`. */
  datatype TypeTag =
    | BooleanTag | IntTag | StringIntTag | DoubleTag | StringDoubleTag | StringTag
    | LocalDateTag | LocalTimeTag | LocalDateTimeTag | UnknownTag

  const KnownTypeNames: set<string> :=
    {"boolean", "int", "stringInt", "double", "stringDouble", "string", "localDate", "localTime", "localDateTime"}

  function TagOf(typeName: string): (tag: TypeTag)
    ensures tag == UnknownTag <==> typeName !in KnownTypeNames
  {
    if typeName == "boolean" then BooleanTag
    else if typeName == "int" then IntTag
    else if typeName == "stringInt" then StringIntTag
    else if typeName == "double" then DoubleTag
    else if typeName == "stringDouble" then StringDoubleTag
    else if typeName == "string" then StringTag
    else if typeName == "localDate" then LocalDateTag
    else if typeName == "localTime" then LocalTimeTag
    else if typeName == "localDateTime" then LocalDateTimeTag
    else UnknownTag
  }

  /** The shared absence rule: `undefined`, `null`, and `''` unless the
      connection allows empty strings, all mean "no value". */
  predicate IsAbsent(allowEmptyString: bool, v: Value) {
    v.Undefined? || v.Null? || (v == Str("") && !allowEmptyString)
  }

  // ---------------------------------------------------------------------
  // From the database: one function per branch of the switch.
  // ---------------------------------------------------------------------

  /** A boolean passes; a number or bigint becomes its truthiness (`!!value`). */
  function BooleanFromDB(v: Value): (r: Result<Value, TransformError>)
    ensures r.Ok? <==> v.Bool? || v.Num? || v.BigInt?
    ensures v.Bool? ==> r == Ok(v)
    ensures v.Num? ==> r == Ok(Bool(Truthy(v.n)))
    ensures v.BigInt? ==> r == Ok(Bool(v.i != 0))
    ensures r.Err? ==> r.error == InvalidValue(FromDB, "boolean", v)
  {
    match v
    case Bool(_) => Ok(v)
    case Num(n) => Ok(Bool(Truthy(n)))
    case BigInt(i) => Ok(Bool(i != 0))
    case _ => Err(InvalidValue(FromDB, "boolean", v))
  }

  /** An integral number passes; a string is converted with unary `+` and
      refused only when that gives NaN; a bigint must convert to a safe integer. */
  function IntFromDB(host: JsHost, v: Value): (r: Result<Value, TransformError>)
    ensures r.Ok? <==>
      || (v.Num? && IsInteger(v.n))
      || (v.Str? && !host.unaryPlus(v.s).NaN?)
      || (v.BigInt? && IsSafeInteger(host.numberOfBigInt(v.i)))
    ensures r.Ok? ==> r.value.Num?
    ensures v.Num? && r.Ok? ==> r == Ok(v)
    ensures v.Str? && r.Ok? ==> r == Ok(Num(host.unaryPlus(v.s)))
    ensures v.BigInt? && r.Ok? ==> r == Ok(Num(host.numberOfBigInt(v.i))) && IsSafeInteger(r.value.n)
    ensures v.BigInt? && r.Err? ==> r.error == PrecisionLost(v.i)
    ensures !v.BigInt? && r.Err? ==> r.error == InvalidValue(FromDB, "int", v)
  {
    match v
    case Num(n) =>
      if !IsInteger(n) then Err(InvalidValue(FromDB, "int", v)) else Ok(v)
    case Str(s) =>
      var result := host.unaryPlus(s);
      if result.NaN? then Err(InvalidValue(FromDB, "int", v)) else Ok(Num(result))
    case BigInt(b) =>
      var result := host.numberOfBigInt(b);
      if !IsSafeInteger(result) then Err(PrecisionLost(b)) else Ok(Num(result))
    case _ => Err(InvalidValue(FromDB, "int", v))
  }

  /** Like `int`, but a string must have the shape `^-?\d+$` and is kept as
      text, and a bigint beyond the safe range becomes its decimal text
      instead of failing. */
  function StringIntFromDB(host: JsHost, v: Value): (r: Result<Value, TransformError>)
    ensures r.Ok? <==>
      || (v.Num? && IsInteger(v.n))
      || (v.Str? && MatchesIntegerPattern(v.s))
      || v.BigInt?
    ensures (v.Num? || v.Str?) && r.Ok? ==> r == Ok(v)
    ensures r.Ok? && r.value.Num? ==> IsInteger(r.value.n)
    ensures r.Ok? && r.value.Str? ==> MatchesIntegerPattern(r.value.s)
    ensures v.BigInt? && r.value.Str? ==> ParseIntegerText(r.value.s) == v.i
    ensures v.BigInt? ==> (r.value.Str? <==> !IsSafeInteger(host.numberOfBigInt(v.i)))
    ensures v.BigInt? && r.value.Num? ==> r.value == Num(host.numberOfBigInt(v.i))
    ensures r.Ok? ==> r.value.Num? || r.value.Str?
    ensures r.Err? ==> r.error == InvalidValue(FromDB, "stringInt", v)
  {
    match v
    case Num(n) =>
      if !IsInteger(n) then Err(InvalidValue(FromDB, "stringInt", v)) else Ok(v)
    case Str(s) =>
      if !MatchesIntegerPattern(s) then Err(InvalidValue(FromDB, "stringInt", v)) else Ok(v)
    case BigInt(b) =>
      var result := host.numberOfBigInt(b);
      if !IsSafeInteger(result) then Ok(Str(IntToDecimal(b))) else Ok(Num(result))
    case _ => Err(InvalidValue(FromDB, "stringInt", v))
  }

  /** A number passes; a string is accepted when converting it with unary `+`
      and writing the number back gives the same text (so `NaN` and
      `Infinity` are accepted); a bigint is converted with `Number`. */
  function DoubleFromDB(host: JsHost, v: Value): (r: Result<Value, TransformError>)
    ensures r.Ok? <==>
      || v.Num? || v.BigInt?
      || (v.Str? && host.numberToString(host.unaryPlus(v.s)) == v.s)
    ensures r.Ok? ==> r.value.Num?
    ensures v.Num? && r.Ok? ==> r == Ok(v)
    ensures v.Str? && r.Ok? ==> r == Ok(Num(host.unaryPlus(v.s))) && host.numberToString(r.value.n) == v.s
    ensures v.BigInt? ==> r == Ok(Num(host.numberOfBigInt(v.i)))
    ensures r.Err? ==> r.error == InvalidValue(FromDB, "double", v)
  {
    match v
    case Num(_) => Ok(v)
    case Str(s) =>
      var result := host.unaryPlus(s);
      if host.numberToString(result) != s then Err(InvalidValue(FromDB, "double", v)) else Ok(Num(result))
    case BigInt(b) => Ok(Num(host.numberOfBigInt(b)))
    case _ => Err(InvalidValue(FromDB, "double", v))
  }

  /** A number passes; a string must have the shape
      `^(-?\d+(\.\d+)?|NaN|-?Infinity)$` and is kept as text; a bigint beyond
      the safe range becomes its decimal text. */
  function StringDoubleFromDB(host: JsHost, v: Value): (r: Result<Value, TransformError>)
    ensures r.Ok? <==> v.Num? || v.BigInt? || (v.Str? && MatchesDoublePattern(v.s))
    ensures (v.Num? || v.Str?) && r.Ok? ==> r == Ok(v)
    ensures r.Ok? && r.value.Str? ==> MatchesDoublePattern(r.value.s)
    ensures v.BigInt? && r.value.Str? ==> MatchesIntegerPattern(r.value.s) && ParseIntegerText(r.value.s) == v.i
    ensures v.BigInt? ==> (r.value.Str? <==> !IsSafeInteger(host.numberOfBigInt(v.i)))
    ensures v.BigInt? && r.value.Num? ==> r.value == Num(host.numberOfBigInt(v.i))
    ensures r.Err? ==> r.error == InvalidValue(FromDB, "stringDouble", v)
  {
    match v
    case Num(_) => Ok(v)
    case Str(s) =>
      if !MatchesDoublePattern(s) then Err(InvalidValue(FromDB, "stringDouble", v)) else Ok(v)
    case BigInt(b) =>
      var result := host.numberOfBigInt(b);
      if !IsSafeInteger(result) then
        IntegerPatternIsDoublePattern(IntToDecimal(b));
        Ok(Str(IntToDecimal(b)))
      else
        Ok(Num(result))
    case _ => Err(InvalidValue(FromDB, "stringDouble", v))
  }

  /** Only a string is a string. */
  function StringFromDB(v: Value): (r: Result<Value, TransformError>)
    ensures r.Ok? <==> v.Str?
    ensures r.Ok? ==> r == Ok(v)
    ensures r.Err? ==> r.error == InvalidValue(FromDB, "string", v)
  {
    if v.Str? then Ok(v) else Err(InvalidValue(FromDB, "string", v))
  }

  /** A date, or a string read as a date at `00:00`, normalised to a local
      date; the result must be a valid date. */
  function LocalDateFromDB(host: JsHost, v: Value): (r: Result<Value, TransformError>)
    ensures r.Ok? ==> (v.DateV? || v.Str?) && IsValidDate(r.value)
    ensures v.DateV? ==> r == (if host.localDateOf(v.d).valid then Ok(DateV(host.localDateOf(v.d)))
                               else Err(InvalidValue(FromDB, "localDate", v)))
    ensures v.Str? ==> r == ValidDateFromDB("localDate", v, host.localDateOf(host.parseDate(v.s + " 00:00")))
    ensures r.Err? ==> r.error == InvalidValue(FromDB, "localDate", v)
  {
    match v
    case DateV(d) => ValidDateFromDB("localDate", v, host.localDateOf(d))
    case Str(s) => ValidDateFromDB("localDate", v, host.localDateOf(host.parseDate(s + " 00:00")))
    case _ => Err(InvalidValue(FromDB, "localDate", v))
  }

  /** A date passes as it is; a string is read as a time on 1970-01-01; the
      result must be a valid date. */
  function LocalTimeFromDB(host: JsHost, v: Value): (r: Result<Value, TransformError>)
    ensures r.Ok? ==> (v.DateV? || v.Str?) && IsValidDate(r.value)
    ensures v.DateV? ==> (r.Ok? <==> v.d.valid) && (r.Ok? ==> r == Ok(v))
    ensures v.Str? ==> (r.Ok? <==> host.parseDate("1970-01-01 " + v.s).valid)
    ensures v.Str? && r.Ok? ==> r == Ok(DateV(host.parseDate("1970-01-01 " + v.s)))
    ensures r.Err? ==> r.error == InvalidValue(FromDB, "localTime", v)
  {
    match v
    case DateV(d) => ValidDateFromDB("localTime", v, d)
    case Str(s) => ValidDateFromDB("localTime", v, host.parseDate("1970-01-01 " + s))
    case _ => Err(InvalidValue(FromDB, "localTime", v))
  }

  /** A date passes as it is; a string is read as a date-time; the result
      must be a valid date. */
  function LocalDateTimeFromDB(host: JsHost, v: Value): (r: Result<Value, TransformError>)
    ensures r.Ok? ==> (v.DateV? || v.Str?) && IsValidDate(r.value)
    ensures v.DateV? ==> (r.Ok? <==> v.d.valid) && (r.Ok? ==> r == Ok(v))
    ensures v.Str? ==> (r.Ok? <==> host.parseDate(v.s).valid)
    ensures v.Str? && r.Ok? ==> r == Ok(DateV(host.parseDate(v.s)))
    ensures r.Err? ==> r.error == InvalidValue(FromDB, "localDateTime", v)
  {
    match v
    case DateV(d) => ValidDateFromDB("localDateTime", v, d)
    case Str(s) => ValidDateFromDB("localDateTime", v, host.parseDate(s))
    case _ => Err(InvalidValue(FromDB, "localDateTime", v))
  }

  /** The `isNaN(result.getTime())` check that closes the three date branches. */
  function ValidDateFromDB(typeName: string, original: Value, result: JsDate): (r: Result<Value, TransformError>)
    ensures r.Ok? <==> result.valid
    ensures r.Ok? ==> r.value == DateV(result)
    ensures r.Err? ==> r.error == InvalidValue(FromDB, typeName, original)
  {
    if !result.valid then Err(InvalidValue(FromDB, typeName, original)) else Ok(DateV(result))
  }

  /** `transformValueFromDB(value, type)`. */
  function TransformValueFromDB(allowEmptyString: bool, host: JsHost, value: Value, typeName: string)
    : (r: Result<Value, TransformError>)
    ensures IsAbsent(allowEmptyString, value) ==> r == Ok(Null)
    ensures !IsAbsent(allowEmptyString, value) && typeName !in KnownTypeNames ==> r == Ok(value)
    ensures r == Ok(Null) <==> IsAbsent(allowEmptyString, value)
    ensures r.Ok? ==> !r.value.Undefined?
  {
    if IsAbsent(allowEmptyString, value) then Ok(Null)
    else
      match TagOf(typeName)
      case BooleanTag => BooleanFromDB(value)
      case IntTag => IntFromDB(host, value)
      case StringIntTag => StringIntFromDB(host, value)
      case DoubleTag => DoubleFromDB(host, value)
      case StringDoubleTag => StringDoubleFromDB(host, value)
      case StringTag => StringFromDB(value)
      case LocalDateTag => LocalDateFromDB(host, value)
      case LocalTimeTag => LocalTimeFromDB(host, value)
      case LocalDateTimeTag => LocalDateTimeFromDB(host, value)
      case UnknownTag => Ok(value)
  }

  // ---------------------------------------------------------------------
  // To the database: only the exact runtime kind is accepted.
  // ---------------------------------------------------------------------

  function BooleanToDB(v: Value): (r: Result<Value, TransformError>)
    ensures r.Ok? <==> v.Bool?
    ensures r.Ok? ==> r == Ok(v)
    ensures r.Err? ==> r.error == InvalidValue(ToDB, "boolean", v)
  {
    if v.Bool? then Ok(v) else Err(InvalidValue(ToDB, "boolean", v))
  }

  /** Only an integral number; no string and no bigint. */
  function IntToDB(v: Value): (r: Result<Value, TransformError>)
    ensures r.Ok? <==> v.Num? && IsInteger(v.n)
    ensures r.Ok? ==> r == Ok(v)
    ensures r.Err? ==> r.error == InvalidValue(ToDB, "int", v)
  {
    if v.Num? && IsInteger(v.n) then Ok(v) else Err(InvalidValue(ToDB, "int", v))
  }

  /** An integral number, or a string of the shape `^-?\d+$`. */
  function StringIntToDB(v: Value): (r: Result<Value, TransformError>)
    ensures r.Ok? <==> (v.Num? && IsInteger(v.n)) || (v.Str? && MatchesIntegerPattern(v.s))
    ensures r.Ok? ==> r == Ok(v)
    ensures r.Err? ==> r.error == InvalidValue(ToDB, "stringInt", v)
  {
    match v
    case Num(n) => if !IsInteger(n) then Err(InvalidValue(ToDB, "stringInt", v)) else Ok(v)
    case Str(s) => if !MatchesIntegerPattern(s) then Err(InvalidValue(ToDB, "stringInt", v)) else Ok(v)
    case _ => Err(InvalidValue(ToDB, "stringInt", v))
  }

  /** Only a number. */
  function DoubleToDB(v: Value): (r: Result<Value, TransformError>)
    ensures r.Ok? <==> v.Num?
    ensures r.Ok? ==> r == Ok(v)
    ensures r.Err? ==> r.error == InvalidValue(ToDB, "double", v)
  {
    if v.Num? then Ok(v) else Err(InvalidValue(ToDB, "double", v))
  }

  /** A number, or a string of the shape `^(-?\d+(\.\d+)?|NaN|-?Infinity)$`. */
  function StringDoubleToDB(v: Value): (r: Result<Value, TransformError>)
    ensures r.Ok? <==> v.Num? || (v.Str? && MatchesDoublePattern(v.s))
    ensures r.Ok? ==> r == Ok(v)
    ensures r.Err? ==> r.error == InvalidValue(ToDB, "stringDouble", v)
  {
    match v
    case Num(_) => Ok(v)
    case Str(s) => if !MatchesDoublePattern(s) then Err(InvalidValue(ToDB, "stringDouble", v)) else Ok(v)
    case _ => Err(InvalidValue(ToDB, "stringDouble", v))
  }

  function StringToDB(v: Value): (r: Result<Value, TransformError>)
    ensures r.Ok? <==> v.Str?
    ensures r.Ok? ==> r == Ok(v)
    ensures r.Err? ==> r.error == InvalidValue(ToDB, "string", v)
  {
    if v.Str? then Ok(v) else Err(InvalidValue(ToDB, "string", v))
  }

  /** A valid date, sent as it is (used for `localDate` and `localDateTime`). */
  function ValidDateToDB(typeName: string, v: Value): (r: Result<Value, TransformError>)
    ensures r.Ok? <==> IsValidDate(v)
    ensures r.Ok? ==> r == Ok(v)
    ensures r.Err? ==> r.error == InvalidValue(ToDB, typeName, v)
  {
    if IsValidDate(v) then Ok(v) else Err(InvalidValue(ToDB, typeName, v))
  }

  /** A valid date, sent as its local time of day in `HH:MM:SS[.mmm]` form. */
  function LocalTimeToDB(v: Value): (r: Result<Value, TransformError>)
    ensures r.Ok? <==> IsValidDate(v)
    ensures r.Ok? ==> r.value.Str?
    ensures r.Ok? && TimeOfDayInRange(v.d) ==>
      && |r.value.s| == (if v.d.milliseconds > 0 then 12 else 8)
      && ParseLocalTime(r.value.s) == Some(TimeOf(v.d))
    ensures r.Err? ==> r.error == InvalidValue(ToDB, "localTime", v)
  {
    if IsValidDate(v) then
      var t := TimeOf(v.d);
      LocalTimeTextShape(t);
      ParseFormatRoundTrip(t);
      Ok(Str(LocalTimeText(t)))
    else
      Err(InvalidValue(ToDB, "localTime", v))
  }

  /** `transformValueToDB(value, type)`. */
  function TransformValueToDB(allowEmptyString: bool, value: Value, typeName: string)
    : (r: Result<Value, TransformError>)
    ensures IsAbsent(allowEmptyString, value) ==> r == Ok(Null)
    ensures !IsAbsent(allowEmptyString, value) && typeName !in KnownTypeNames ==> r == Ok(value)
    ensures r == Ok(Null) <==> IsAbsent(allowEmptyString, value)
    ensures r.Ok? && !IsAbsent(allowEmptyString, value) && TagOf(typeName) != LocalTimeTag ==> r.value == value
    ensures r.Ok? && !IsAbsent(allowEmptyString, value) && TagOf(typeName) == LocalTimeTag ==> r.value.Str?
  {
    if IsAbsent(allowEmptyString, value) then Ok(Null)
    else
      match TagOf(typeName)
      case BooleanTag => BooleanToDB(value)
      case IntTag => IntToDB(value)
      case StringIntTag => StringIntToDB(value)
      case DoubleTag => DoubleToDB(value)
      case StringDoubleTag => StringDoubleToDB(value)
      case StringTag => StringToDB(value)
      case LocalDateTag => ValidDateToDB("localDate", value)
      case LocalTimeTag => LocalTimeToDB(value)
      case LocalDateTimeTag => ValidDateToDB("localDateTime", value)
      case UnknownTag => Ok(value)
  }

  // ---------------------------------------------------------------------
  // Properties relating the two directions.
  // ---------------------------------------------------------------------

  /** Outbound is stricter than inbound: every value the application may
      send for a type is also one the connection accepts back from the
      database for that type (`localDate` is excluded: reading a date back
      re-normalises it through the host). */
  lemma OutboundAcceptedInbound(allowEmptyString: bool, host: JsHost, v: Value, typeName: string)
    requires TagOf(typeName) != LocalDateTag
    requires TransformValueToDB(allowEmptyString, v, typeName).Ok?
    ensures TransformValueFromDB(allowEmptyString, host, v, typeName).Ok?
  {
    if !IsAbsent(allowEmptyString, v) {
      match TagOf(typeName)
      case LocalTimeTag => assert LocalTimeFromDB(host, v).Ok?;
      case _ =>
    }
  }

  /** Round trip of the application values: a present value the connection
      accepts outbound for a type other than `localDate` and `localTime` is
      sent unchanged and comes back from the database as the same value. The
      two excluded types are re-normalised or re-parsed by the host on the way
      back. */
  lemma ValueRoundTrip(allowEmptyString: bool, host: JsHost, v: Value, typeName: string)
    requires TagOf(typeName) != LocalDateTag && TagOf(typeName) != LocalTimeTag
    requires !IsAbsent(allowEmptyString, v)
    requires TransformValueToDB(allowEmptyString, v, typeName).Ok?
    ensures TransformValueFromDB(allowEmptyString, host,
              TransformValueToDB(allowEmptyString, v, typeName).value, typeName) == Ok(v)
  {
    var w := TransformValueToDB(allowEmptyString, v, typeName).value;
    assert w == v;
  }

  /** A `localTime` value is sent as a text from which its time of day can be
      read back exactly. */
  lemma LocalTimeRoundTrip(allowEmptyString: bool, d: JsDate)
    requires d.valid && TimeOfDayInRange(d)
    ensures var r := TransformValueToDB(allowEmptyString, DateV(d), "localTime");
            r.Ok? && r.value.Str? && ParseLocalTime(r.value.s) == Some(TimeOf(d))
  {
    assert TagOf("localTime") == LocalTimeTag;
  }

  /** The precision escape: for a bigint beyond the safe range, `int` fails
      with a precision error while `stringInt` and `stringDouble` return its
      exact decimal text, which the connection also accepts outbound. */
  lemma PrecisionEscape(allowEmptyString: bool, host: JsHost, b: int)
    requires HostFacts(host)
    requires !SafeInteger(b)
    ensures TransformValueFromDB(allowEmptyString, host, BigInt(b), "int") == Err(PrecisionLost(b))
    ensures TransformValueFromDB(allowEmptyString, host, BigInt(b), "stringInt") == Ok(Str(IntToDecimal(b)))
    ensures TransformValueFromDB(allowEmptyString, host, BigInt(b), "stringDouble") == Ok(Str(IntToDecimal(b)))
    ensures ParseIntegerText(IntToDecimal(b)) == b
    ensures TransformValueToDB(allowEmptyString, Str(IntToDecimal(b)), "stringInt") == Ok(Str(IntToDecimal(b)))
  {
    BigIntSafety(host, b);
    assert TagOf("int") == IntTag && TagOf("stringInt") == StringIntTag && TagOf("stringDouble") == StringDoubleTag;
    var t := IntToDecimal(b);
    assert |t| > 0;
  }

  /** A bigint within the safe range reads as the same integer, as a number,
      for each of the integer-like types. */
  lemma SafeBigIntFromDB(allowEmptyString: bool, host: JsHost, b: int, typeName: string)
    requires HostFacts(host)
    requires SafeInteger(b)
    requires typeName in {"int", "stringInt", "stringDouble", "double"}
    ensures TransformValueFromDB(allowEmptyString, host, BigInt(b), typeName) == Ok(Num(Finite(b as real)))
  {
    BigIntSafety(host, b);
  }

  /** An invalid date is refused in both directions by every date type. */
  lemma InvalidDateRefused(allowEmptyString: bool, host: JsHost, d: JsDate, typeName: string)
    requires HostFacts(host)
    requires !d.valid
    requires TagOf(typeName) in {LocalDateTag, LocalTimeTag, LocalDateTimeTag}
    ensures TransformValueFromDB(allowEmptyString, host, DateV(d), typeName).Err?
    ensures TransformValueToDB(allowEmptyString, DateV(d), typeName).Err?
  {
    assert !host.localDateOf(d).valid;
  }
}
