/**
 * The type-level rules of the insert builder, each stated as a function over
 * plain values: which columns an insert must and may supply, when the
 * `defaultValues()` shortcut and the `returning*` methods exist, how a
 * dynamic set turns executable, and how the row type of a `returning`
 * clause is shaped.
 */
module InsertTypes {

  // ---------------------------------------------------------------------
  // Columns required and optional for an insert
  // ---------------------------------------------------------------------

  /**
   * What the column classification reads about a table property: whether it
   * is a column of the table (`IValueSource<…> & Column`), and whether it is a
   * `ComputedColumn`, an `OptionalColumn` or a `ColumnWithDefaultValue`.
   */
  datatype ColumnFlags = ColumnFlags(isColumn: bool, computed: bool, optional: bool, hasDefault: bool)

  /** A table's properties by name. */
  type Columns = map<string, ColumnFlags>

  /** The per-property conditional of `RequiredColumnsForInsertOf`: the key
      itself, or `never` (the empty union). */
  function RequiredColumnEntry(k: string, c: ColumnFlags): (r: set<string>)
    ensures r <= {k}
    ensures k in r <==> c.isColumn && !c.computed && !c.optional && !c.hasDefault
  {
    if c.isColumn then
      if c.computed then {}
      else if c.optional then {}
      else if c.hasDefault then {}
      else {k}
    else {}
  }

  /** The per-property conditional of `OptionalColumnsForInsertOf`. */
  function OptionalColumnEntry(k: string, c: ColumnFlags): (r: set<string>)
    ensures r <= {k}
    ensures k in r <==> c.isColumn && !c.computed && (c.optional || c.hasDefault)
  {
    if c.isColumn then
      if c.computed then {}
      else if c.optional then {k}
      else if c.hasDefault then {k}
      else {}
    else {}
  }

  /** `RequiredColumnsForInsertOf<T>`: the union, over every property, of its
      conditional. */
  function RequiredColumnsForInsertOf(t: Columns): (r: set<string>)
    ensures forall k :: k in r <==>
      k in t && t[k].isColumn && !t[k].computed && !t[k].optional && !t[k].hasDefault
  {
    var r := set k, x | k in t && x in RequiredColumnEntry(k, t[k]) :: x;
    assert forall k | k in t && k in RequiredColumnEntry(k, t[k]) :: k in r;
    r
  }

  /** `OptionalColumnsForInsertOf<T>`. */
  function OptionalColumnsForInsertOf(t: Columns): (r: set<string>)
    ensures forall k :: k in r <==>
      k in t && t[k].isColumn && !t[k].computed && (t[k].optional || t[k].hasDefault)
  {
    var r := set k, x | k in t && x in OptionalColumnEntry(k, t[k]) :: x;
    assert forall k | k in t && k in OptionalColumnEntry(k, t[k]) :: k in r;
    r
  }

  /** The required and optional insert columns split the non-computed
      columns of a table between them; computed columns and non-column
      properties are in neither. */
  lemma InsertColumnsPartition(t: Columns)
    ensures RequiredColumnsForInsertOf(t) !! OptionalColumnsForInsertOf(t)
    ensures RequiredColumnsForInsertOf(t) + OptionalColumnsForInsertOf(t)
         == set k | k in t && t[k].isColumn && !t[k].computed
  {
  }

  // ---------------------------------------------------------------------
  // defaultValues()
  // ---------------------------------------------------------------------

  /** The table an insert targets: a typed table, or `any`. */
  datatype TableType = AnyTable | Table(columns: Columns)

  /** `DefaultValueType<TABLE>` is a callable, not `never`. */
  function DefaultValuesAvailable(t: TableType): (r: bool)
    ensures r <==> t.AnyTable? || forall k :: k in t.columns ==>
      !t.columns[k].isColumn || t.columns[k].computed || t.columns[k].optional || t.columns[k].hasDefault
  {
    if t.AnyTable? then true
    else RequiredColumnsForInsertOf(t.columns) == {}
  }

  // ---------------------------------------------------------------------
  // Dynamic set
  // ---------------------------------------------------------------------

  /** The type a dynamic insert has between calls: still missing some
      required keys (`MissingKeysInsertExpression`, which cannot be executed),
      or executable (`ExecutableInsertExpression`). */
  datatype InsertStage = MissingKeys(missing: set<string>) | Executable

  /** The calls that name the columns they supply. */
  datatype SetMethod =
    | Set | SetIfValue | SetIfSet | SetIfSetIfValue | SetIfNotSet | SetIfNotSetIfValue
    | SetIfHasValue | SetIfHasValueIfValue | SetIfHasNoValue | SetIfHasNoValueIfValue

  /** The calls that only drop columns already supplied. */
  datatype IgnoreMethod = IgnoreIfSet | IgnoreIfHasValue | IgnoreIfHasNoValue | IgnoreAnySetWithNoValue

  /** One call on a dynamic insert, with the keys of the object (or the
      columns) it is given. */
  datatype DynamicCall =
    | SetCall(setMethod: SetMethod, keys: set<string>)
    | IgnoreCall(ignoreMethod: IgnoreMethod, columns: set<string>)

  /** `MaybeExecutableInsertExpression` as evidently intended: executable
      exactly when no required key is missing. */
  function MaybeExecutable(missing: set<string>): (r: InsertStage)
    ensures r == Executable <==> missing == {}
    ensures r.MissingKeys? ==> r.missing == missing
  {
    if missing == {} then Executable else MissingKeys(missing)
  }

  /** `MaybeExecutableInsertExpression` as written: `MISSING_KEYS extends
      never ? … : …` on a bare type parameter distributes over the union of
      missing keys, one `MissingKeysInsertExpression` per key, and over the
      empty union yields the empty union `never`. The resulting union of
      types is the set of its members. */
  function MaybeExecutableAsWritten(missing: set<string>): (r: set<InsertStage>)
    ensures forall k :: k in missing <==> MissingKeys({k}) in r
    ensures forall s :: s in r <==> exists k :: k in missing && s == MissingKeys({k})
  {
    set k | k in missing :: MissingKeys({k})
  }

  /** As written, no call sequence on a dynamic insert yields an executable
      insert: once every required key is supplied the result is `never`,
      where the intended rule gives `ExecutableInsertExpression`. */
  lemma MaybeExecutableAsWrittenNeverExecutable(missing: set<string>)
    ensures Executable !in MaybeExecutableAsWritten(missing)
    ensures missing == {} ==> MaybeExecutableAsWritten(missing) == {} && MaybeExecutable(missing) == Executable
  {
  }

  /** The type after one call: every `set*` call removes the keys it supplies
      from the missing ones, every `ignore*` call keeps the type, and an
      executable insert stays executable. */
  function Step(stage: InsertStage, call: DynamicCall): (r: InsertStage)
    ensures stage.Executable? ==> r == Executable
    ensures stage.MissingKeys? && call.SetCall? ==> r == MaybeExecutable(stage.missing - call.keys)
    ensures stage.MissingKeys? && call.IgnoreCall? ==> r == stage
  {
    match stage
    case Executable => Executable
    case MissingKeys(missing) =>
      match call
      case SetCall(_, keys) => MaybeExecutable(missing - keys)
      case IgnoreCall(_, _) => stage
  }

  /** The type after a sequence of calls. */
  function Run(stage: InsertStage, calls: seq<DynamicCall>): InsertStage
    decreases |calls|
  {
    if calls == [] then stage else Run(Step(stage, calls[0]), calls[1..])
  }

  /** Every key some `set*` call in `calls` supplies. */
  function Supplied(calls: seq<DynamicCall>): set<string>
    decreases |calls|
  {
    if calls == [] then {}
    else (if calls[0].SetCall? then calls[0].keys else {}) + Supplied(calls[1..])
  }

  /** Whether `calls` holds a `set*` call at all. */
  predicate HasSetCall(calls: seq<DynamicCall>)
    decreases |calls|
  {
    calls != [] && (calls[0].SetCall? || HasSetCall(calls[1..]))
  }

  /** `dynamicSet()`: all required keys are missing. */
  function DynamicSet(t: Columns): (r: InsertStage)
    ensures r.MissingKeys? && r.missing == RequiredColumnsForInsertOf(t)
  {
    MissingKeys(RequiredColumnsForInsertOf(t))
  }

  lemma {:induction false} RunExecutable(calls: seq<DynamicCall>)
    ensures Run(Executable, calls) == Executable
    decreases |calls|
  {
    if calls != [] {
      RunExecutable(calls[1..]);
    }
  }

  lemma {:induction false} NothingSuppliedWithoutSetCall(calls: seq<DynamicCall>)
    requires !HasSetCall(calls)
    ensures Supplied(calls) == {}
    decreases |calls|
  {
    if calls != [] {
      NothingSuppliedWithoutSetCall(calls[1..]);
    }
  }

  /** After any call sequence the missing keys are the starting ones less
      every supplied key, and the insert is executable exactly when some
      `set*` call was made and nothing is missing any more. */
  lemma {:induction false} RunMissingKeys(missing: set<string>, calls: seq<DynamicCall>)
    ensures Run(MissingKeys(missing), calls)
         == if HasSetCall(calls) && missing - Supplied(calls) == {} then Executable
            else MissingKeys(missing - Supplied(calls))
    decreases |calls|
  {
    if calls != [] {
      var c, rest := calls[0], calls[1..];
      match c
      case IgnoreCall(_, _) =>
        RunMissingKeys(missing, rest);
      case SetCall(_, keys) =>
        if missing - keys == {} {
          RunExecutable(rest);
          assert missing - Supplied(calls) == {};
        } else {
          RunMissingKeys(missing - keys, rest);
          if !HasSetCall(rest) {
            NothingSuppliedWithoutSetCall(rest);
          }
          assert missing - keys - Supplied(rest) == missing - Supplied(calls);
        }
    }
  }

  /** A dynamic insert becomes executable exactly when the calls made on it
      include a `set*` call and supply every required column. */
  lemma DynamicSetExecutable(t: Columns, calls: seq<DynamicCall>)
    ensures Run(DynamicSet(t), calls) == Executable <==>
      HasSetCall(calls) && RequiredColumnsForInsertOf(t) <= Supplied(calls)
    ensures Run(DynamicSet(t), calls).MissingKeys? ==>
      Run(DynamicSet(t), calls).missing == RequiredColumnsForInsertOf(t) - Supplied(calls)
  {
    RunMissingKeys(RequiredColumnsForInsertOf(t), calls);
  }

  // ---------------------------------------------------------------------
  // returning clauses by dialect
  // ---------------------------------------------------------------------

  datatype Database = NoopDB | PostgreSql | SqlServer | Sqlite | Oracle | MySql | MariaDB

  /** The three shapes of insert: one row (`set`/`values` of an object, or a
      dynamic set), many rows (`values` of an array), and from a select. */
  datatype InsertForm = SingleRow | MultipleRows | FromSelect

  /** `returning` and `returningOneColumn` are callables, not `never`. */
  function ReturningAvailable(form: InsertForm, db: Database): (r: bool)
    ensures form != FromSelect ==> (r <==> db in {NoopDB, PostgreSql, SqlServer, Sqlite, Oracle})
    ensures form == FromSelect ==> (r <==> db in {NoopDB, PostgreSql, SqlServer, Sqlite})
  {
    match form
    case FromSelect => db.NoopDB? || db.PostgreSql? || db.SqlServer? || db.Sqlite?
    case _ => db.NoopDB? || db.PostgreSql? || db.SqlServer? || db.Sqlite? || db.Oracle?
  }

  /** `returningLastInsertedId` is a callable, not `never`: it needs an
      autogenerated primary key, and beyond a single row also the dialects
      that allow `returning` for that form. */
  function ReturningLastInsertedIdAvailable(form: InsertForm, db: Database, hasAutogeneratedKey: bool): (r: bool)
    ensures form == SingleRow ==> (r <==> hasAutogeneratedKey)
    ensures form != SingleRow ==> (r <==> hasAutogeneratedKey && ReturningAvailable(form, db))
  {
    match form
    case SingleRow => hasAutogeneratedKey
    case MultipleRows =>
      if db.NoopDB? || db.PostgreSql? || db.SqlServer? || db.Oracle? || db.Sqlite? then hasAutogeneratedKey else false
    case FromSelect =>
      if db.NoopDB? || db.PostgreSql? || db.SqlServer? || db.Sqlite? then hasAutogeneratedKey else false
  }

  /** Oracle is the one dialect whose `returning` forms exist for inserted
      values but not for an insert from a select. */
  lemma ReturningFromSelectIsNarrower(db: Database)
    ensures ReturningAvailable(FromSelect, db) ==> ReturningAvailable(SingleRow, db) && ReturningAvailable(MultipleRows, db)
    ensures ReturningAvailable(SingleRow, db) && !ReturningAvailable(FromSelect, db) <==> db == Oracle
  {
  }

  // ---------------------------------------------------------------------
  // Shape of a returned row
  // ---------------------------------------------------------------------

  /** The members of a union type that the rules look at. */
  datatype TypeAtom = NullT | UndefinedT | Named(name: string)

  /** A property's type: `any` (or `unknown`), which everything extends, or a
      union of atoms, the empty union being `never`. */
  datatype PropType = AnyT | Union(atoms: set<TypeAtom>)

  /** `a extends T` for a single atom `a`. */
  predicate Admits(t: PropType, a: TypeAtom) {
    t.AnyT? || a in t.atoms
  }

  /** The per-property conditional of `MandatoryPropertiesOf`. */
  function MandatoryPropertyEntry(k: string, t: PropType): (r: set<string>)
    ensures r <= {k}
    ensures k in r <==> !Admits(t, NullT) && !Admits(t, UndefinedT)
  {
    if Admits(t, NullT) && Admits(t, UndefinedT) then {}
    else if Admits(t, NullT) then {}
    else if Admits(t, UndefinedT) then {}
    else {k}
  }

  /** The per-property conditional of `OptionalPropertiesOf`. */
  function OptionalPropertyEntry(k: string, t: PropType): (r: set<string>)
    ensures r <= {k}
    ensures k in r <==> Admits(t, NullT) || Admits(t, UndefinedT)
  {
    if Admits(t, NullT) && Admits(t, UndefinedT) then {k}
    else if Admits(t, NullT) then {k}
    else if Admits(t, UndefinedT) then {k}
    else {}
  }

  /** `MandatoryPropertiesOf<TYPE>`. */
  function MandatoryPropertiesOf(props: map<string, PropType>): (r: set<string>)
    ensures forall k :: k in r <==> k in props && !Admits(props[k], NullT) && !Admits(props[k], UndefinedT)
  {
    var r := set k, x | k in props && x in MandatoryPropertyEntry(k, props[k]) :: x;
    assert forall k | k in props && k in MandatoryPropertyEntry(k, props[k]) :: k in r;
    r
  }

  /** `OptionalPropertiesOf<TYPE>`. */
  function OptionalPropertiesOf(props: map<string, PropType>): (r: set<string>)
    ensures forall k :: k in r <==> k in props && (Admits(props[k], NullT) || Admits(props[k], UndefinedT))
  {
    var r := set k, x | k in props && x in OptionalPropertyEntry(k, props[k]) :: x;
    assert forall k | k in props && k in OptionalPropertyEntry(k, props[k]) :: k in r;
    r
  }

  /** Every property of a row is mandatory or optional, and never both. */
  lemma PropertiesPartition(props: map<string, PropType>)
    ensures MandatoryPropertiesOf(props) !! OptionalPropertiesOf(props)
    ensures MandatoryPropertiesOf(props) + OptionalPropertiesOf(props) == props.Keys
  {
  }

  /** `NonNullable<T>`: the type without `null` and `undefined`. */
  function NonNullable(t: PropType): (r: PropType)
    ensures !t.AnyT? ==> !Admits(r, NullT) && !Admits(r, UndefinedT)
    ensures forall n :: Admits(r, Named(n)) <==> Admits(t, Named(n))
  {
    match t
    case AnyT => AnyT
    case Union(atoms) => Union(atoms - {NullT, UndefinedT})
  }

  /** A property of the row type: its type and whether it carries `?`. */
  datatype ResultProp = ResultProp(optional: bool, propType: PropType)

  /** `InsertResult<RESULT>`. Without strict null checks (where `undefined`
      extends `string`) the row is kept as it is; otherwise a property that
      may be `null` or `undefined` becomes `?` with its non-nullable type. */
  function InsertResult(strictNullChecks: bool, props: map<string, PropType>): (r: map<string, ResultProp>)
    ensures r.Keys == props.Keys
    ensures !strictNullChecks ==> forall k :: k in r ==> r[k] == ResultProp(false, props[k])
    ensures strictNullChecks ==> forall k :: k in r ==>
      && (r[k].optional <==> k in OptionalPropertiesOf(props))
      && (k in MandatoryPropertiesOf(props) ==> r[k].propType == props[k])
      && (k in OptionalPropertiesOf(props) ==> r[k].propType == NonNullable(props[k]))
  {
    if !strictNullChecks then
      map k | k in props :: ResultProp(false, props[k])
    else
      var mandatory := MandatoryPropertiesOf(props);
      map k | k in props ::
        if k in mandatory then ResultProp(false, props[k]) else ResultProp(true, NonNullable(props[k]))
  }

  /** Under strict null checks, a property of the row may be left out
      (`?`) exactly when its value may be absent, and it never holds `null`
      or `undefined` as a declared value unless it is `any`. */
  lemma InsertResultAbsence(props: map<string, PropType>, k: string)
    requires k in props
    ensures var r := InsertResult(true, props);
      && (r[k].optional <==> Admits(props[k], NullT) || Admits(props[k], UndefinedT))
      && (!props[k].AnyT? ==> !Admits(r[k].propType, NullT) && !Admits(r[k].propType, UndefinedT))
  {
  }

  /** `FixInsertOneResult<T>`: on a bare type parameter the conditional
      distributes over the union, so `undefined` turns into `null` and every
      other member is kept. */
  function FixInsertOneResult(t: PropType): (r: PropType)
    ensures t.AnyT? <==> r.AnyT?
    ensures r.Union? ==> UndefinedT !in r.atoms
    ensures r.Union? ==> (NullT in r.atoms <==> NullT in t.atoms || UndefinedT in t.atoms)
    ensures forall n :: Admits(r, Named(n)) <==> Admits(t, Named(n))
  {
    match t
    case AnyT => AnyT
    case Union(atoms) => Union(set a | a in atoms :: if a == UndefinedT then NullT else a)
  }

  /** Distributing over a union: fixing a union of two types unites their
      fixed forms, and fixing twice is fixing once. */
  lemma FixInsertOneResultDistributes(a: set<TypeAtom>, b: set<TypeAtom>)
    ensures FixInsertOneResult(Union(a + b)).atoms
         == FixInsertOneResult(Union(a)).atoms + FixInsertOneResult(Union(b)).atoms
    ensures FixInsertOneResult(FixInsertOneResult(Union(a))) == FixInsertOneResult(Union(a))
  {
  }

  // ---------------------------------------------------------------------
  // Guided property names
  // ---------------------------------------------------------------------

  /** `GuidedPropName<T>`: one trailing `!`, or else one trailing `?`, is
      taken off. */
  function GuidedPropName(name: string): (r: string)
    ensures |name| > 0 && name[|name| - 1] in {'!', '?'} ==> r == name[..|name| - 1]
    ensures !(|name| > 0 && name[|name| - 1] in {'!', '?'}) ==> r == name
  {
    if |name| > 0 && name[|name| - 1] == '!' then name[..|name| - 1]
    else if |name| > 0 && name[|name| - 1] == '?' then name[..|name| - 1]
    else name
  }

  predicate Unguided(name: string) {
    !(|name| > 0 && name[|name| - 1] in {'!', '?'})
  }

  /** The keys of `GuidedObj<T>`: every original key, and each one again with
      `!` and with `?` appended. */
  function GuidedKeys(keys: set<string>): (r: set<string>)
    ensures keys <= r
    ensures forall k :: k in keys ==> k + "!" in r && k + "?" in r
    ensures forall g :: g in r <==> g in keys || exists k :: k in keys && (g == k + "!" || g == k + "?")
  {
    keys + (set k | k in keys :: k + "!") + (set k | k in keys :: k + "?")
  }

  /** When no original key ends in `!` or `?`, `GuidedPropName` maps every
      guided key back onto an original key, and onto the one it came from. */
  lemma GuidedPropNameRecoversKey(keys: set<string>)
    requires forall k :: k in keys ==> Unguided(k)
    ensures forall g :: g in GuidedKeys(keys) ==> GuidedPropName(g) in keys
    ensures forall k :: k in keys ==>
      GuidedPropName(k) == k && GuidedPropName(k + "!") == k && GuidedPropName(k + "?") == k
  {
    forall k | k in keys
      ensures GuidedPropName(k + "!") == k && GuidedPropName(k + "?") == k
    {
      assert (k + "!")[..|k|] == k;
      assert (k + "?")[..|k|] == k;
    }
  }
}
