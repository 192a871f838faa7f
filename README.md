# Value transforms and insert type rules of a SQL query builder

This project models three parts of a TypeScript SQL query builder's connection
and insert layer, and proves properties of them.

- **Value transforms.** The connection's two default conversions, inbound and outbound:
  - `transformValueFromDB` is lenient. It coerces what the driver returns into the application's value for a logical type name: `boolean`, `int`, `stringInt`, `double`, `stringDouble`, `string`, `localDate`, `localTime` or `localDateTime`.
  - `transformValueToDB` is strict. It accepts only the exact runtime kind for the type, and writes a `localTime` as `HH:MM:SS[.mmm]` text.
  - Both first map `undefined`, `null` and (unless the connection allows empty strings) `''` to `null`.
  - Both pass through a value whose type name they do not know.
- **Connection rules.** Identifier quoting (`escape`), and `executeFunction`'s argument shuffle and its check that a function called with anything but `'optional'` gives a value.
- **Insert type rules.** The conditional types of the insert builder, read as decidable rules:
  - the required and optional insert columns of a table;
  - when `defaultValues()` exists;
  - how a dynamic set becomes executable;
  - which dialects offer `returning`;
  - how a returned row's properties split into mandatory and optional;
  - `FixInsertOneResult` and `GuidedPropName`.

Files:

- `wrappers.dfy`: `Option` and `Result`.
- `js_values.dfy`: JavaScript runtime values as the transforms see them, and the host record.
  - The values are numbers as exact reals plus NaN and the infinities, bigints, strings and dates.
  - The host record (`JsHost`) holds the built-ins whose exact output is not computed: unary `+`, number-to-text, `Number(bigint)`, `new Date(text)` and the local-date normalisation.
  - `HostFacts` states the two facts about the host that the proofs use.
- `decimal_text.dfy`: decimal writing of integers, zero padding, and the two regular-expression shapes.
- `local_time.dfy`: the `localTime` text, its parser, and the append-by-append serialiser (`FormatLocalTime`, with one step method per field), which is proved equal to the text.
- `value_transform.dfy`: the two transforms, one function per branch, and the lemmas that relate the two directions.
- `connection.dfy`: `escape`, `executeFunction`'s argument shuffle (`ResolveArguments`) and its result check.
- `insert_types.dfy`: the insert type rules.

## Model

| member | source | states |
|---|---|---|
| ValueTransform.TagOf | src/connections/AbstractConnection.ts:504-649 | a type name selects a branch exactly when it is one of the nine known logical type names; every other name falls to the pass-through default |
| ValueTransform.BooleanFromDB | src/connections/AbstractConnection.ts:505-515 | accepted exactly for a boolean, number or bigint; a number or bigint becomes its truthiness (false for 0 and NaN); anything else is the inbound boolean error |
| ValueTransform.IntFromDB | src/connections/AbstractConnection.ts:516-537 | accepted exactly for an integral number, a string whose unary `+` is not NaN, or a bigint whose `Number` is a safe integer; the result is always a number, and for a bigint it is `Number(b)`; a bigint fails with the precision error, anything else with the inbound int error |
| ValueTransform.StringIntFromDB | src/connections/AbstractConnection.ts:538-558 | accepted exactly for an integral number, a string matching `^-?\d+$`, or any bigint; numbers and strings pass unchanged; a bigint becomes text exactly when `Number(b)` is not a safe integer, and `Number(b)` otherwise; a text result always matches the integer pattern, and for a bigint it denotes that bigint exactly |
| ValueTransform.DoubleFromDB | src/connections/AbstractConnection.ts:559-573 | accepted exactly for a number, a bigint, or a string that the host writes back identically after unary `+`; a number passes unchanged, an accepted string becomes its unary `+` (whose text is the received string), and a bigint becomes `Number(b)` |
| ValueTransform.StringDoubleFromDB | src/connections/AbstractConnection.ts:574-591 | accepted exactly for a number, a bigint, or a string matching the double pattern; a bigint becomes text exactly when `Number(b)` is not a safe integer, and `Number(b)` otherwise; a text result matches that pattern, and for a bigint it is the bigint's exact decimal |
| ValueTransform.StringFromDB | src/connections/AbstractConnection.ts:592-596 | accepted exactly for a string, which passes unchanged |
| ValueTransform.LocalDateFromDB | src/connections/AbstractConnection.ts:597-616 | a date is normalised to a local date, and a string is parsed with ` 00:00` appended and then normalised; the result is that normalised date when it is valid, and the inbound localDate error otherwise; other kinds are refused |
| ValueTransform.LocalTimeFromDB | src/connections/AbstractConnection.ts:617-631 | a valid date passes as it is; a string is accepted exactly when `1970-01-01 ` plus the string parses to a valid date, and then becomes that date; anything else is refused |
| ValueTransform.LocalDateTimeFromDB | src/connections/AbstractConnection.ts:632-646 | a valid date passes as it is; a string is accepted exactly when it parses to a valid date, and then becomes that date; anything else is refused |
| ValueTransform.ValidDateFromDB | src/connections/AbstractConnection.ts:611-615 | the `getTime()` NaN check: accepted exactly when the built date is valid, and then the result is that date |
| ValueTransform.TransformValueFromDB | src/connections/AbstractConnection.ts:494-650 | the result is `null` exactly for an absent value; an unknown type name passes a present value through; the result is never `undefined` |
| ValueTransform.BooleanToDB | src/connections/AbstractConnection.ts:662-666 | only a boolean is sent, unchanged; anything else is the outbound boolean error |
| ValueTransform.IntToDB | src/connections/AbstractConnection.ts:667-674 | only an integral number is sent, unchanged; strings and bigints are refused |
| ValueTransform.StringIntToDB | src/connections/AbstractConnection.ts:675-688 | only an integral number or a string matching `^-?\d+$` is sent, unchanged |
| ValueTransform.DoubleToDB | src/connections/AbstractConnection.ts:689-693 | only a number is sent, unchanged |
| ValueTransform.StringDoubleToDB | src/connections/AbstractConnection.ts:694-704 | only a number or a string matching the double pattern is sent, unchanged |
| ValueTransform.StringToDB | src/connections/AbstractConnection.ts:705-709 | only a string is sent, unchanged |
| ValueTransform.ValidDateToDB | src/connections/AbstractConnection.ts:710-714 | only a valid date is sent, unchanged; the same rule serves `localDateTime` |
| ValueTransform.LocalTimeToDB | src/connections/AbstractConnection.ts:715-747 | only a valid date is sent, as text; for an in-range time of day the text has 8 characters, or 12 with milliseconds, and parses back to exactly that time of day |
| ValueTransform.TransformValueToDB | src/connections/AbstractConnection.ts:651-756 | the result is `null` exactly for an absent value; unknown type names pass through; every accepted present value is sent unchanged except a `localTime`, which is sent as text |
| ValueTransform.OutboundAcceptedInbound | src/connections/AbstractConnection.ts:651-756 | every value accepted outbound for a type other than `localDate` is also accepted inbound for that type |
| ValueTransform.ValueRoundTrip | src/connections/AbstractConnection.ts:494-756 | for every type other than `localDate` and `localTime`, a present value accepted outbound is sent unchanged and comes back inbound as the same value |
| ValueTransform.LocalTimeRoundTrip | src/connections/AbstractConnection.ts:715-747 | a valid date's `localTime` text is accepted outbound and parses back to its time of day |
| ValueTransform.PrecisionEscape | src/connections/AbstractConnection.ts:530-589 | an unsafe bigint fails as `int` with the precision error, while `stringInt` and `stringDouble` return its exact decimal text, which parses back to it and is accepted outbound as `stringInt` |
| ValueTransform.SafeBigIntFromDB | src/connections/AbstractConnection.ts:530-589 | a safe bigint reads as the same integer, as a number, for `int`, `stringInt`, `double` and `stringDouble` |
| ValueTransform.InvalidDateRefused | src/connections/AbstractConnection.ts:597-752 | an invalid date is refused in both directions by each of the three date types |
| JsValues.BigIntSafety | src/connections/AbstractConnection.ts:531-535 | under the host facts, `Number.isSafeInteger(Number(b))` holds exactly for bigints in the safe range, and there the number is exact |
| DecimalText.IntToDecimal | src/connections/AbstractConnection.ts:554 | `'' + b` for a bigint matches `^-?\d+$` and parses back to `b`; it is the shortest form: a `-` exactly for negative `b`, no leading zero, never `-0` |
| DecimalText.IntToDecimalInjective | src/connections/AbstractConnection.ts:554 | different bigints are written as different texts |
| DecimalText.IntegerPatternIsDoublePattern | src/connections/AbstractConnection.ts:579 | every text matching the integer pattern also matches the double pattern |
| DecimalText.ZeroPad | src/connections/AbstractConnection.ts:718-744 | the padded digits denote `n`, and have exactly the width iff `n` fits in it |
| DecimalText.DecimalRoundTrip | src/connections/AbstractConnection.ts:719 | reading back the decimal text of a number gives the number |
| LocalTimeFormat.AppendTwoDigits | src/connections/AbstractConnection.ts:718-722 | appending an hours, minutes or seconds field by the two-branch rule yields the text followed by that field zero-padded to two digits |
| LocalTimeFormat.AppendMilliseconds | src/connections/AbstractConnection.ts:735-744 | the milliseconds step appends nothing for zero, and otherwise a dot and the milliseconds zero-padded to three digits |
| LocalTimeFormat.FormatLocalTime | src/connections/AbstractConnection.ts:717-745 | the text built append by append, with one digit-count branch per field, is the `HH:MM:SS[.mmm]` text of the date's time of day |
| LocalTimeFormat.LocalTimeTextShape | src/connections/AbstractConnection.ts:717-745 | an in-range time of day is 8 or 12 characters, with `:` at positions 2 and 5 and `.` at position 8 when there are milliseconds |
| LocalTimeFormat.ParseFormatRoundTrip | src/connections/AbstractConnection.ts:717-745 | parsing the text of an in-range time of day gives it back |
| LocalTimeFormat.LocalTimeTextInjective | src/connections/AbstractConnection.ts:717-745 | distinct in-range times of day have distinct texts |
| AbstractConnection.IndexOf | src/connections/AbstractConnection.ts:766 | `indexOf` is -1 exactly when the character is absent, and otherwise the first position holding it |
| AbstractConnection.Escape | src/connections/AbstractConnection.ts:765-770 | a reserved word or a name containing a space is forced to a quoted identifier; any other name is returned unchanged |
| AbstractConnection.ResolveArguments | src/connections/AbstractConnection.ts:267-274 | a string fifth argument makes the type name the transform type and that string the required flag, and keeps `adapter2`; otherwise the fifth argument becomes the adapter |
| AbstractConnection.FunctionResult | src/connections/AbstractConnection.ts:279-290 | transform errors propagate; a `null` or `undefined` result fails with the missing-result error exactly when the call was not `'optional'`; otherwise the transformed value is returned |
| AbstractConnection.AbsentFunctionResult | src/connections/AbstractConnection.ts:283-289 | without a custom adapter, an absent value from the database fails a required call and is `null` for an optional one |
| AbstractConnection.TypeNameReplacesReturnType | src/connections/AbstractConnection.ts:261-274 | an `enum`/`custom`/`customComparable` call behaves as a call whose return type is its type name |
| InsertTypes.RequiredColumnsForInsertOf | src/expressions/insert.ts:261-272 | a key is required exactly when it is a column that is neither computed, optional nor defaulted |
| InsertTypes.OptionalColumnsForInsertOf | src/expressions/insert.ts:274-285 | a key is optional exactly when it is a non-computed column that is optional or defaulted |
| InsertTypes.InsertColumnsPartition | src/expressions/insert.ts:261-285 | required and optional are disjoint, and together are exactly the non-computed columns |
| InsertTypes.DefaultValuesAvailable | src/expressions/insert.ts:230-232 | `defaultValues()` exists exactly for an `any` table or a table where no column is required |
| InsertTypes.MaybeExecutable | src/expressions/insert.ts:234-235 | as intended: executable exactly when no key is missing, and otherwise still missing the same keys |
| InsertTypes.MaybeExecutableAsWritten | src/expressions/insert.ts:234-235 | as written: the union holds exactly one missing-keys type `MissingKeys({k})` per missing key `k`, and nothing else |
| InsertTypes.MaybeExecutableAsWrittenNeverExecutable | src/expressions/insert.ts:234-235 | as written the executable type is never produced, and with no key missing the result is `never` |
| InsertTypes.Step | src/expressions/insert.ts:79-94 | as intended (with the corrected `MaybeExecutable`): a `set*` call removes the keys it supplies; an `ignore*` call keeps the type; an executable insert stays executable |
| InsertTypes.DynamicSet | src/expressions/insert.ts:98 | a dynamic set starts missing every required column |
| InsertTypes.RunExecutable | src/expressions/insert.ts:61-76 | once executable, every further call keeps the insert executable |
| InsertTypes.NothingSuppliedWithoutSetCall | src/expressions/insert.ts:86-94 | calls that are all `ignore*` supply no key |
| InsertTypes.RunMissingKeys | src/expressions/insert.ts:79-94 | as intended (with the corrected `MaybeExecutable`): after any call sequence, the missing keys are the initial ones less every supplied key; the insert is executable exactly when a `set*` call was made and nothing is missing |
| InsertTypes.DynamicSetExecutable | src/expressions/insert.ts:79-98 | as intended (with the corrected `MaybeExecutable`): a dynamic set becomes executable exactly when the calls include a `set*` call and supply every required column |
| InsertTypes.ReturningAvailable | src/expressions/insert.ts:168-186 | `returning`/`returningOneColumn` exist for NoopDB, PostgreSql, SqlServer, Sqlite and Oracle; from a select, for the same minus Oracle |
| InsertTypes.ReturningLastInsertedIdAvailable | src/expressions/insert.ts:217-228 | one row needs only an autogenerated primary key; several rows and a select additionally need a dialect that allows `returning` for that form |
| InsertTypes.ReturningFromSelectIsNarrower | src/expressions/insert.ts:178-186 | the from-select dialects are a subset of the others, and Oracle is the only dialect in the difference |
| InsertTypes.MandatoryPropertiesOf | src/expressions/insert.ts:201 | a property is mandatory exactly when its type admits neither `null` nor `undefined` |
| InsertTypes.OptionalPropertiesOf | src/expressions/insert.ts:202 | a property is optional exactly when its type admits `null` or `undefined` |
| InsertTypes.PropertiesPartition | src/expressions/insert.ts:201-202 | mandatory and optional properties are disjoint and cover every key |
| InsertTypes.NonNullable | src/expressions/insert.ts:200 | `NonNullable` of a union drops `null` and `undefined` and keeps every other member |
| InsertTypes.InsertResult | src/expressions/insert.ts:198-200 | without strict null checks the row is unchanged; with them, optional properties get `?` and their non-nullable type, and mandatory ones keep their type |
| InsertTypes.InsertResultAbsence | src/expressions/insert.ts:198-202 | under strict null checks a property gets `?` exactly when it may be absent, and then no longer declares `null` or `undefined` |
| InsertTypes.FixInsertOneResult | src/expressions/insert.ts:203 | `undefined` becomes `null`, every other member is kept, and `undefined` is gone |
| InsertTypes.FixInsertOneResultDistributes | src/expressions/insert.ts:203 | the fix distributes over a union and is idempotent |
| InsertTypes.GuidedPropName | src/expressions/insert.ts:194 | a trailing `!`, or else a trailing `?`, is stripped once; other names are unchanged |
| InsertTypes.GuidedKeys | src/expressions/insert.ts:193 | the keys of `GuidedObj` are exactly the original keys and each one with `!` and with `?` appended |
| InsertTypes.GuidedPropNameRecoversKey | src/expressions/insert.ts:193-194 | when no original key ends in `!` or `?`, `GuidedPropName` maps each guided key back to the key it came from |

## Left out

- JavaScript built-ins. Unary `+` on a string, number-to-text, `Number(bigint)`, `new Date(text)` and the local-date normalisation are fields of `JsHost` and are not computed. The model uses only the facts in `HostFacts`.
- Double rounding and floating-point formatting. Finite numbers are exact reals.
- The timezone fix of `localDate` (`Date.UTC` plus 600 minutes) is `localDateOf`. Because of it, `localDate` is excluded from `OutboundAcceptedInbound` and `ValueRoundTrip`.
- The `___type___` marker attached to inbound dates is not modelled. In the source, `localDateTime` spells it `'LocalDateTime'`.
- Error messages are kept as the error's kind, direction, type name and value. `ChainedError` wrapping, `attachSource` and promise plumbing are not modelled.
- `executeFunction` query building and execution are not modelled: the driver's result is a parameter. A custom adapter is a function parameter, and the default adapter it receives as a third argument is not modelled.
- `isReservedKeyword` and `forceAsIdentifier` belong to the dialect's SQL builder, which is not part of this model. They are function fields of `Connection`.
- Transaction handling, the factory methods and the other connection methods are not modelled.
- The insert rules cover a single dialect per table with no union of dialects. `MySql` and `MariaDB` stand for the dialects outside the five the insert types name.
- `ColumnsForSetOf` (the keys a `set*` call may use) is defined in values.ts, which is not part of this model. `set*` keys are therefore unconstrained. The columns an `ignore*` call names are unconstrained too; that loses nothing, because every `ignore*` method keeps the type whatever columns it names (src/expressions/insert.ts:86, 92-94).
- `AutogeneratedPrimaryKeyColumnsTypesOf` is reduced to one boolean: whether the table has an autogenerated key.
- A TypeScript type is modelled as `any` or a union of atoms, where `unknown` behaves as `any`. `Named` atoms stand for the type's other members.
- The `compose`/`split`/`withOne`/`withMany` declarations (insert.ts:120-162) are not modelled: only their signatures are declared.
- The driver example script (OracleDBExample.ts) holds no reusable logic and is not modelled.
- ValueTransform.IntFromDB: a string is rejected only when unary `+` gives NaN, so `'1.5'` and texts beyond 2^53 are accepted and converted without an integrality or precision check.
- ValueTransform.ValueRoundTrip: covers every type except `localDate` and `localTime`. A `localDate` is re-normalised by the host on the way back. A `localTime` is sent as text and read back as a date on 1970-01-01, so only its time of day survives; `LocalTimeRoundTrip` states that part.

## Findings

| source | as written | input that shows it | evidently intended | confidence | as-written member | corrected member |
|---|---|---|---|---|---|---|
| src/expressions/insert.ts:234-235 | `MISSING_KEYS extends never ? …` checks a bare type parameter. The conditional therefore distributes over the union of missing keys, and over the empty union it gives `never`. | A dynamic set on any table whose call supplies the last missing key: `Exclude<…>` is `never`, so the result is `never` rather than `ExecutableInsertExpression`. | A non-distributive check, `[MISSING_KEYS] extends [never]`: executable exactly when no key is missing. | medium; not executed | InsertTypes.MaybeExecutableAsWrittenNeverExecutable | InsertTypes.MaybeExecutable |
