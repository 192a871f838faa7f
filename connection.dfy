/**
 * The two small rules of the connection that sit beside the value
 * transforms: quoting an identifier (`escape`) and the required-result check
 * that `executeFunction` applies to a function's transformed result.
 */
module AbstractConnection {
  import opened Wrappers
  import opened JsValues
  import opened ValueTransform

  /**
   * The parts of a connection the modelled members read. The reserved-word
   * test and the forced quoting belong to the dialect's SQL builder, whose
   * code is not part of this model, so they are given as functions.
   */
  datatype Connection = Connection(
    allowEmptyString: bool,
    host: JsHost,
    isReservedKeyword: string -> bool,
    forceAsIdentifier: string -> string)

  /** `s.indexOf(c)`: the first position of `c` in `s`, or -1. */
  function IndexOf(s: string, c: char): (r: int)
    ensures -1 <= r < |s|
    ensures r == -1 <==> c !in s
    ensures r >= 0 ==> s[r] == c && c !in s[..r]
  {
    if s == [] then -1
    else if s[0] == c then 0
    else
      var k := IndexOf(s[1..], c);
      if k == -1 then -1
      else
        assert s[..k + 1] == [s[0]] + s[1..][..k];
        k + 1
  }

  /** `escape(identifier)`: quoted only when it is a reserved word or
      contains a space, otherwise returned unchanged. */
  function Escape(conn: Connection, identifier: string): (r: string)
    ensures conn.isReservedKeyword(identifier) || ' ' in identifier ==> r == conn.forceAsIdentifier(identifier)
    ensures !conn.isReservedKeyword(identifier) && ' ' !in identifier ==> r == identifier
  {
    if conn.isReservedKeyword(identifier) || IndexOf(identifier, ' ') >= 0 then
      conn.forceAsIdentifier(identifier)
    else
      identifier
  }

  /** A custom type adapter: its own `transformValueFromDB`, whose code is
      not part of this model. */
  datatype TypeAdapter = TypeAdapter(transformValueFromDB: (Value, string) -> Result<Value, TransformError>)

  /** What a caller passes in the fifth position of `executeFunction`:
      nothing, the `'required'`/`'optional'` text of the overloads that take
      a type name, or a type adapter. */
  datatype FifthArgument = NoArgument | TextArgument(text: string) | AdapterArgument(adapter: TypeAdapter)

  /**
   * The arguments of `executeFunction` as its implementation names them:
   * `(functionName, params, returnType, required, adapter, adapter2)`. For the
   * `enum`, `custom` and `customComparable` overloads the caller's type name
   * lands in `required` and the required flag in `adapter`.
   */
  datatype FunctionCall = FunctionCall(
    functionName: string,
    returnType: string,
    required: string,
    adapter: FifthArgument,
    adapter2: Option<TypeAdapter>)

  datatype ResolvedCall = ResolvedCall(returnType: string, required: string, adapter: Option<TypeAdapter>)

  /** The argument shuffle at the start of `executeFunction`: when `adapter`
      is a string, the type name becomes the transform type and the string
      becomes the required flag. */
  function ResolveArguments(call: FunctionCall): (r: ResolvedCall)
    ensures call.adapter.TextArgument? ==>
      r.returnType == call.required && r.required == call.adapter.text && r.adapter == call.adapter2
    ensures !call.adapter.TextArgument? ==>
      r.returnType == call.returnType && r.required == call.required
      && r.adapter == (if call.adapter.AdapterArgument? then Some(call.adapter.adapter) else None)
  {
    match call.adapter
    case TextArgument(text) => ResolvedCall(call.required, text, call.adapter2)
    case AdapterArgument(a) => ResolvedCall(call.returnType, call.required, Some(a))
    case NoArgument => ResolvedCall(call.returnType, call.required, None)
  }

  datatype CallError =
    | TransformFailed(cause: TransformError)
    | MissingResult(functionName: string)

  /** The function's value after the custom adapter, if any, or else the
      connection's own inbound transform. */
  function TransformedResult(conn: Connection, rc: ResolvedCall, raw: Value): Result<Value, TransformError> {
    if rc.adapter.Some? then rc.adapter.value.transformValueFromDB(raw, rc.returnType)
    else TransformValueFromDB(conn.allowEmptyString, conn.host, raw, rc.returnType)
  }

  /** What `executeFunction` resolves to once the executor returned `raw`:
      the transformed value, failing when it is `null` or `undefined` and the
      call was not made with `'optional'`. */
  function FunctionResult(conn: Connection, call: FunctionCall, raw: Value): (r: Result<Value, CallError>)
    ensures var rc := ResolveArguments(call);
            var t := TransformedResult(conn, rc, raw);
            && (t.Err? ==> r == Err(TransformFailed(t.error)))
            && (r.Err? && r.error.TransformFailed? ==> t.Err?)
            && (r == Err(MissingResult(call.functionName)) <==>
                  t.Ok? && (t.value.Null? || t.value.Undefined?) && rc.required != "optional")
            && (r.Ok? <==> t.Ok? && (rc.required == "optional" || !(t.value.Null? || t.value.Undefined?)))
            && (r.Ok? ==> r.value == t.value)
    ensures r.Ok? && (r.value.Null? || r.value.Undefined?) ==> ResolveArguments(call).required == "optional"
  {
    var rc := ResolveArguments(call);
    match TransformedResult(conn, rc, raw)
    case Err(e) => Err(TransformFailed(e))
    case Ok(result) =>
      if (result.Null? || result.Undefined?) && rc.required != "optional" then
        Err(MissingResult(call.functionName))
      else
        Ok(result)
  }

  /** Without a custom adapter, an absent value from a function fails the
      call unless it was made with `'optional'`, and is `null` otherwise. */
  lemma AbsentFunctionResult(conn: Connection, call: FunctionCall, raw: Value)
    requires ResolveArguments(call).adapter.None?
    requires IsAbsent(conn.allowEmptyString, raw)
    ensures ResolveArguments(call).required != "optional" ==> FunctionResult(conn, call, raw) == Err(MissingResult(call.functionName))
    ensures ResolveArguments(call).required == "optional" ==> FunctionResult(conn, call, raw) == Ok(Null)
  {
  }

  /** For the overloads that take a type name, the type name rather than
      `'enum'`, `'custom'` or `'customComparable'` is what the result is read
      as: the call behaves as a call whose return type is the type name. */
  lemma TypeNameReplacesReturnType(conn: Connection, functionName: string, returnType: string,
                                   typeName: string, required: string, adapter2: Option<TypeAdapter>, raw: Value)
    ensures FunctionResult(conn, FunctionCall(functionName, returnType, typeName, TextArgument(required), adapter2), raw)
         == FunctionResult(conn, FunctionCall(functionName, typeName, required,
                                              if adapter2.Some? then AdapterArgument(adapter2.value) else NoArgument, None), raw)
  {
  }
}
