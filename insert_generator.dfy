/**
 * InsertGenerator: builds the plan of a REST insert into one table. A values scan yields one row
 * of VARCHAR parameters; a projection turns it into a row of the table, giving each column its
 * value expression (the supplied field, cast when its type differs; a null literal when nothing is
 * supplied; NEXTVAL for an identity column; IFNULL with the declared default otherwise); an
 * Insert_Returning operator inserts it; and, when the table has a primary key, a last projection
 * returns the key columns.
 *
 * Cast and overload resolution stay symbolic: a Cast node names its target type, NEXTVAL and
 * IFNULL are nodes of their own, and the registry supplies the NEXTVAL result type and whether a
 * type class can be cast from VARCHAR.
 */
module InsertGen {
  import opened Common
  import opened Rows

  datatype SequenceName = SequenceName(schemaName: string, tableName: string)

  datatype Column = Column(
    position: nat,
    tInstance: TInstance,
    nullable: bool,
    identityGenerator: Option<SequenceName>,
    defaultIdentity: Option<bool>,    // identity declared BY DEFAULT (true) or ALWAYS (false)
    defaultValue: Option<string>)

  datatype IndexColumn = IndexColumn(column: Column)

  /**
   * A user table. `columns` is getColumnsIncludingInternal(); getColumns() is its first
   * `visibleCount` columns (the rest, such as a generated primary key, are internal).
   */
  datatype UserTable = UserTable(
    rowTypeId: nat,
    columns: seq<Column>,
    visibleCount: nat,
    primaryKey: Option<seq<IndexColumn>>)

  ghost predicate WellFormed(table: UserTable)
  {
    table.visibleCount <= |table.columns|
  }

  /** The resolvers the generator consults, kept uninterpreted. */
  datatype Registry = Registry(
    nextValResult: bool -> TInstance,    // NEXTVAL's result instance for a column's nullability
    castFromVarchar: TClass -> bool)     // whether the class has a cast from VARCHAR

  /** The prepared expressions the generator produces. */
  datatype Expr =
    | Parameter(index: nat, tInstance: TInstance)
    | Field(tInstance: TInstance, index: nat)
    | NullLit(tInstance: TInstance)
    | Cast(operand: Expr, target: TInstance)
    | NextVal(sequence: SequenceName, resultType: TInstance)
    | IfNull(first: Expr, second: Expr)
    | DefaultLit(tInstance: TInstance, text: string, castFromVarchar: bool)

  datatype BindableRow = BindableRow(rowType: RowType, expressions: seq<Expr>)

  datatype Operator =
    | ValuesScan(rows: seq<BindableRow>, rowType: RowType)
    | ProjectTable(input: Operator, inputRowType: RowType, outputRowType: RowType, projections: seq<Expr>)
    | InsertReturning(input: Operator, usePValues: bool)

  datatype Error = IndexOutOfBounds(index: nat, size: nat)

  /** The generator's (operator, row type) pair, which each step reassigns. */
  class RowStream {
    var operator: Operator
    var rowType: RowType

    constructor (operator: Operator, rowType: RowType)
      ensures this.operator == operator && this.rowType == rowType
    {
      this.operator := operator;
      this.rowType := rowType;
    }
  }

  /** The instance of every parameter: VARCHAR(65535), not nullable. */
  const VARCHAR_PARAMETER: TInstance := TInstance(VARCHAR, [65535], false)

  /** `schema().userTableRowType(table)`: one field per column, internal columns included. */
  function UserTableRowType(table: UserTable): (rt: RowType)
    ensures rt.NFields() == |table.columns|
    ensures forall i :: 0 <= i < |table.columns| ==> rt.fieldTypes[i] == table.columns[i].tInstance
  {
    RowType(table.rowTypeId, seq(|table.columns|, i requires 0 <= i < |table.columns| => table.columns[i].tInstance))
  }

  /** The values row type: one VARCHAR parameter field per visible column. */
  function ValuesRowType(table: UserTable, valuesTypeId: nat): RowType
  {
    RowType(valuesTypeId, seq(table.visibleCount, _ => VARCHAR_PARAMETER))
  }

  /** The values scan: a single row whose field i is parameter i. */
  function ValuesScanOf(table: UserTable, valuesTypeId: nat): Operator
  {
    var rt := ValuesRowType(table, valuesTypeId);
    ValuesScan([BindableRow(rt, seq(table.visibleCount, i requires 0 <= i => Parameter(i, VARCHAR_PARAMETER)))], rt)
  }

  /** `sequenceGenerator`: NEXTVAL of the column's sequence, cast to the column type when needed,
      wrapped as IFNULL(supplied, NEXTVAL) for a BY DEFAULT identity when an expression is supplied. */
  function SequenceGenerator(registry: Registry, sequence: SequenceName, column: Column, expression: Option<Expr>): Expr
  {
    var resultInstance := registry.nextValResult(column.nullable);
    var seqExpr := NextVal(sequence, resultInstance);
    var seqExpr' := if column.tInstance != resultInstance then Cast(seqExpr, column.tInstance) else seqExpr;
    if expression.Some? && column.defaultIdentity == Some(true) then IfNull(expression.value, seqExpr')
    else seqExpr'
  }

  /** The literal of a declared default, converted through VARCHAR when the column type has such a cast. */
  function DefaultLiteral(registry: Registry, tInstance: TInstance, text: string): Expr
  {
    DefaultLit(tInstance, text, registry.castFromVarchar(tInstance.typeClass))
  }

  /** The expression before generators and defaults: the input field (cast when its type differs
      from the column's), or a null literal of the column type when the input has no such field. */
  function BaseExpr(table: UserTable, inputRowType: RowType, i: nat): Expr
    requires i < |table.columns|
  {
    var column := table.columns[i];
    if i >= inputRowType.NFields() then NullLit(column.tInstance)
    else
      var field := Field(inputRowType.fieldTypes[i], i);
      if column.tInstance != inputRowType.fieldTypes[i] then Cast(field, column.tInstance) else field
  }

  /** The projection for column i. A default on a column past the input's fields reads
      insertsP.get(i) beyond the list's end, which throws. */
  function ColumnExpr(table: UserTable, registry: Registry, inputRowType: RowType, i: nat): Result<Expr, Error>
    requires i < |table.columns|
  {
    var column := table.columns[i];
    var base := BaseExpr(table, inputRowType, i);
    if column.identityGenerator.Some? then
      Success(SequenceGenerator(registry, column.identityGenerator.value, column, Some(base)))
    else if column.defaultValue.Some? then
      if i >= inputRowType.NFields() then Failure(IndexOutOfBounds(i, inputRowType.NFields()))
      else Success(IfNull(Field(inputRowType.fieldTypes[i], i), DefaultLiteral(registry, column.tInstance, column.defaultValue.value)))
    else Success(base)
  }

  /** The projections of the first k columns, or the exception of the first column that throws. */
  function ProjectionsUpTo(table: UserTable, registry: Registry, inputRowType: RowType, k: nat): (r: Result<seq<Expr>, Error>)
    requires k <= |table.columns|
    ensures r.Success? ==> |r.value| == k
  {
    if k == 0 then Success([])
    else
      match ProjectionsUpTo(table, registry, inputRowType, k - 1)
      case Failure(e) => Failure(e)
      case Success(s) =>
        match ColumnExpr(table, registry, inputRowType, k - 1)
        case Failure(e) => Failure(e)
        case Success(x) => Success(s + [x])
  }

  function Projections(table: UserTable, registry: Registry, inputRowType: RowType): Result<seq<Expr>, Error>
  {
    ProjectionsUpTo(table, registry, inputRowType, |table.columns|)
  }

  /** The final projection on the primary key's columns from the k-th on, in key order, by
      column position; a position outside the row type throws. */
  function KeyProjectionsFrom(keyColumns: seq<IndexColumn>, rowType: RowType, k: nat): Result<seq<Expr>, Error>
    requires k <= |keyColumns|
    decreases |keyColumns| - k
  {
    if k == |keyColumns| then Success([])
    else
      var p := keyColumns[k].column.position;
      if p >= rowType.NFields() then Failure(IndexOutOfBounds(p, rowType.NFields()))
      else Prepend([Field(rowType.fieldTypes[p], p)], KeyProjectionsFrom(keyColumns, rowType, k + 1))
  }

  function KeyProjections(keyColumns: seq<IndexColumn>, rowType: RowType): Result<seq<Expr>, Error>
  {
    KeyProjectionsFrom(keyColumns, rowType, 0)
  }

  /** Puts `front` before a successful list of projections; an exception passes through. */
  function Prepend(front: seq<Expr>, r: Result<seq<Expr>, Error>): Result<seq<Expr>, Error>
  {
    match r
    case Failure(e) => Failure(e)
    case Success(rest) => Success(front + rest)
  }

  /** Prepending twice is prepending the concatenation: the associativity step the key-projection
      loop needs. */
  lemma PrependTwice(p: seq<Expr>, q: seq<Expr>, r: Result<seq<Expr>, Error>)
    ensures Prepend(p, Prepend(q, r)) == Prepend(p + q, r)
  {
    if r.Success? {
      assert p + (q + r.value) == (p + q) + r.value;
    }
  }

  /** The whole insert plan `create(tableName)` builds. */
  function InsertPlan(table: UserTable, registry: Registry, valuesTypeId: nat): Result<Operator, Error>
  {
    var valuesType := ValuesRowType(table, valuesTypeId);
    var target := UserTableRowType(table);
    match Projections(table, registry, valuesType)
    case Failure(e) => Failure(e)
    case Success(exprs) =>
      var inserted := InsertReturning(ProjectTable(ValuesScanOf(table, valuesTypeId), valuesType, target, exprs), true);
      match table.primaryKey
      case None => Success(inserted)
      case Some(keyColumns) =>
        match KeyProjections(keyColumns, target)
        case Failure(e) => Failure(e)
        case Success(pExprs) => Success(ProjectTable(inserted, target, target, pExprs))
  }

  /** `assembleValueScan`: fills the parameter list in a loop. */
  method AssembleValueScan(table: UserTable, valuesTypeId: nat) returns (stream: RowStream)
    ensures fresh(stream)
    ensures stream.operator == ValuesScanOf(table, valuesTypeId)
    ensures stream.rowType == ValuesRowType(table, valuesTypeId)
  {
    var nfields := table.visibleCount;
    var types: seq<TInstance> := [];
    var tExprs: seq<Expr> := [];
    var index := 0;
    while index < nfields
      invariant 0 <= index <= nfields
      invariant types == seq(index, _ => VARCHAR_PARAMETER)
      invariant tExprs == seq(index, i requires 0 <= i => Parameter(i, VARCHAR_PARAMETER))
    {
      tExprs := tExprs + [Parameter(index, VARCHAR_PARAMETER)];
      types := types + [VARCHAR_PARAMETER];
      index := index + 1;
    }
    var rowType := RowType(valuesTypeId, types);
    stream := new RowStream(ValuesScan([BindableRow(rowType, tExprs)], rowType), rowType);
  }

  /** The first loop of `assembleProjectTable`: one field reference per input column, in order. */
  method PreparedFields(inputType: RowType) returns (insertsP: seq<Expr>)
    ensures |insertsP| == inputType.NFields()
    ensures forall j :: 0 <= j < |insertsP| ==> insertsP[j] == Field(inputType.fieldTypes[j], j)
  {
    insertsP := [];
    var i := 0;
    while i < inputType.NFields()
      invariant 0 <= i <= inputType.NFields()
      invariant |insertsP| == i
      invariant forall j :: 0 <= j < i ==> insertsP[j] == Field(inputType.fieldTypes[j], j)
    {
      insertsP := insertsP + [Field(inputType.fieldTypes[i], i)];
      i := i + 1;
    }
  }

  /** `assembleProjectTable`: fills the `row` array column by column, then projects onto the table's row type. */
  method AssembleProjectTable(input: RowStream, table: UserTable, registry: Registry) returns (r: Outcome<Error>)
    requires input.rowType.NFields() <= |table.columns|
    modifies input
    ensures r.Fail? ==> unchanged(input) && Projections(table, registry, old(input.rowType)) == Failure(r.error)
    ensures r.Pass? ==>
      && Projections(table, registry, old(input.rowType)).Success?
      && input.operator == ProjectTable(old(input.operator), old(input.rowType), UserTableRowType(table),
                                        Projections(table, registry, old(input.rowType)).value)
      && input.rowType == UserTableRowType(table)
  {
    var inputType := input.rowType;
    var targetRowType := UserTableRowType(table);
    var insertsP := PreparedFields(inputType);
    var projections := ResolveRow(table, registry, inputType, targetRowType, insertsP);
    if projections.Failure? {
      return Fail(projections.error);
    }
    input.operator := ProjectTable(input.operator, inputType, targetRowType, projections.value);
    input.rowType := targetRowType;
    r := Pass;
  }

  /** The `row` array of `assembleProjectTable`: seeded with the input's fields, then resolved column
      by column; the first column that cannot be resolved throws. */
  method ResolveRow(table: UserTable, registry: Registry, inputType: RowType, targetRowType: RowType,
                    insertsP: seq<Expr>) returns (projections: Result<seq<Expr>, Error>)
    requires inputType.NFields() <= |table.columns| && targetRowType == UserTableRowType(table)
    requires |insertsP| == inputType.NFields()
    requires forall j :: 0 <= j < |insertsP| ==> insertsP[j] == Field(inputType.fieldTypes[j], j)
    ensures projections == Projections(table, registry, inputType)
  {
    var nfields := inputType.NFields();
    var len := targetRowType.NFields();
    var row := new Option<Expr>[len](_ => None);
    var i := 0;
    while i < nfields
      invariant 0 <= i <= nfields
      invariant forall j :: 0 <= j < i ==> row[j] == Some(Field(inputType.fieldTypes[j], j))
      invariant forall j :: i <= j < len ==> row[j] == None
    {
      row[i] := Some(Field(inputType.fieldTypes[i], i));
      i := i + 1;
    }
    i := 0;
    ghost var done: seq<Expr> := [];
    while i < len
      invariant 0 <= i <= len
      invariant |done| == i && ProjectionsUpTo(table, registry, inputType, i) == Success(done)
      invariant forall j :: 0 <= j < i ==> row[j] == Some(done[j])
      invariant forall j :: i <= j < len ==> row[j] == (if j < nfields then Some(Field(inputType.fieldTypes[j], j)) else None)
    {
      var e := ResolveColumn(table, registry, inputType, targetRowType, insertsP, i, row[i]);
      if e.Failure? {
        LaterColumnsKeepFailure(table, registry, inputType, i + 1, e.error);
        return Failure(e.error);
      }
      row[i] := Some(e.value);
      done := done + [e.value];
      i := i + 1;
    }
    var exprs := Unwrap(row[..]);
    assert exprs == done;
    assert len == |table.columns|;
    projections := Success(exprs);
  }

  /** The contents of a filled `row` array: `Arrays.asList(row)` once every slot is set. */
  function Unwrap(s: seq<Option<Expr>>): (r: seq<Expr>)
    requires forall j :: 0 <= j < |s| ==> s[j].Some?
    ensures |r| == |s| && forall j :: 0 <= j < |s| ==> s[j] == Some(r[j])
  {
    seq(|s|, j requires 0 <= j < |s| => s[j].value)
  }

  /** The body of the column loop: start from `row[i]`, then apply the identity generator or the default. */
  method ResolveColumn(table: UserTable, registry: Registry, inputType: RowType, targetRowType: RowType,
                       insertsP: seq<Expr>, i: nat, slot: Option<Expr>) returns (r: Result<Expr, Error>)
    requires i < |table.columns| && targetRowType == UserTableRowType(table)
    requires |insertsP| == inputType.NFields() <= |table.columns|
    requires forall j :: 0 <= j < |insertsP| ==> insertsP[j] == Field(inputType.fieldTypes[j], j)
    requires slot == if i < inputType.NFields() then Some(Field(inputType.fieldTypes[i], i)) else None
    ensures r == ColumnExpr(table, registry, inputType, i)
  {
    var column := table.columns[i];
    var e: Expr;
    if slot.None? {
      e := NullLit(targetRowType.fieldTypes[i]);
    } else if column.tInstance != inputType.fieldTypes[i] {
      e := Cast(slot.value, column.tInstance);
    } else {
      e := slot.value;
    }
    if column.identityGenerator.Some? {
      e := SequenceGenerator(registry, column.identityGenerator.value, column, Some(e));
    } else if column.defaultValue.Some? {
      if i >= |insertsP| {
        return Failure(IndexOutOfBounds(i, |insertsP|));
      }
      e := IfNull(insertsP[i], DefaultLiteral(registry, targetRowType.fieldTypes[i], column.defaultValue.value));
    }
    r := Success(e);
  }

  /** Once a prefix of the columns throws, every longer prefix throws the same exception. */
  lemma {:induction false} LaterColumnsKeepFailure(table: UserTable, registry: Registry, inputRowType: RowType, k: nat, e: Error)
    requires k <= |table.columns|
    requires ProjectionsUpTo(table, registry, inputRowType, k) == Failure(e)
    ensures Projections(table, registry, inputRowType) == Failure(e)
    decreases |table.columns| - k
  {
    if k < |table.columns| {
      LaterColumnsKeepFailure(table, registry, inputRowType, k + 1, e);
    }
  }

  /** `create(tableName)`: values scan, table projection, Insert_Returning, then the key projection. */
  method Create(table: UserTable, registry: Registry, valuesTypeId: nat) returns (r: Result<Operator, Error>)
    requires WellFormed(table)
    ensures r == InsertPlan(table, registry, valuesTypeId)
  {
    var stream := AssembleValueScan(table, valuesTypeId);
    var projected := AssembleProjectTable(stream, table, registry);
    if projected.Fail? {
      return Failure(projected.error);
    }
    stream.operator := InsertReturning(stream.operator, true);
    ghost var exprs := Projections(table, registry, ValuesRowType(table, valuesTypeId)).value;
    assert stream.operator == InsertReturning(ProjectTable(ValuesScanOf(table, valuesTypeId),
      ValuesRowType(table, valuesTypeId), UserTableRowType(table), exprs), true);
    assert stream.rowType == UserTableRowType(table);
    if table.primaryKey.Some? {
      var keyColumns := table.primaryKey.value;
      var inserted := stream.operator;
      var pExpressions: seq<Expr> := [];
      var k := 0;
      assert Prepend([], KeyProjectionsFrom(keyColumns, stream.rowType, 0)) == KeyProjectionsFrom(keyColumns, stream.rowType, 0) by {
        var x := KeyProjectionsFrom(keyColumns, stream.rowType, 0);
        if x.Success? { assert [] + x.value == x.value; }
      }
      while k < |keyColumns|
        invariant 0 <= k <= |keyColumns|
        invariant stream.rowType == UserTableRowType(table) && stream.operator == inserted
        invariant KeyProjections(keyColumns, stream.rowType) ==
                  Prepend(pExpressions, KeyProjectionsFrom(keyColumns, stream.rowType, k))
      {
        var fieldIndex := keyColumns[k].column.position;
        if fieldIndex >= stream.rowType.NFields() {
          assert KeyProjections(keyColumns, stream.rowType) == Failure(IndexOutOfBounds(fieldIndex, stream.rowType.NFields()));
          return Failure(IndexOutOfBounds(fieldIndex, stream.rowType.NFields()));
        }
        var f := Field(stream.rowType.fieldTypes[fieldIndex], fieldIndex);
        PrependTwice(pExpressions, [f], KeyProjectionsFrom(keyColumns, stream.rowType, k + 1));
        pExpressions := pExpressions + [f];
        k := k + 1;
      }
      assert pExpressions + [] == pExpressions;
      assert KeyProjections(keyColumns, UserTableRowType(table)) == Success(pExpressions);
      stream.operator := ProjectTable(stream.operator, stream.rowType, UserTableRowType(table), pExpressions);
    }
    r := Success(stream.operator);
  }


  // ----- What each column gets -----

  /** The table projection has one expression per column of the table's row type, and column i's
      expression is ColumnExpr(i); it throws exactly when some column's expression throws, and
      then with the first such column's exception. */
  lemma {:induction false} ProjectionsByColumn(table: UserTable, registry: Registry, inputRowType: RowType, k: nat)
    requires k <= |table.columns|
    ensures var r := ProjectionsUpTo(table, registry, inputRowType, k);
      && (r.Success? <==> forall i :: 0 <= i < k ==> ColumnExpr(table, registry, inputRowType, i).Success?)
      && (r.Success? ==> |r.value| == k && forall i :: 0 <= i < k ==> ColumnExpr(table, registry, inputRowType, i) == Success(r.value[i]))
      && (r.Failure? ==> exists i :: 0 <= i < k && ColumnExpr(table, registry, inputRowType, i) == Failure(r.error)
                                   && forall j :: 0 <= j < i ==> ColumnExpr(table, registry, inputRowType, j).Success?)
  {
    if k > 0 {
      ProjectionsByColumn(table, registry, inputRowType, k - 1);
    }
  }

  /** A supplied field keeps its position and is cast exactly when its type differs from the column's. */
  lemma SuppliedFieldCastIffTypesDiffer(table: UserTable, registry: Registry, inputRowType: RowType, i: nat)
    requires i < |table.columns| && i < inputRowType.NFields()
    requires table.columns[i].identityGenerator.None? && table.columns[i].defaultValue.None?
    ensures var f := Field(inputRowType.fieldTypes[i], i);
      ColumnExpr(table, registry, inputRowType, i) ==
        Success(if table.columns[i].tInstance != inputRowType.fieldTypes[i] then Cast(f, table.columns[i].tInstance) else f)
  {
  }

  /** A column past the input's fields, with no generator and no default, gets a typed null literal. */
  lemma MissingFieldIsNullLiteral(table: UserTable, registry: Registry, inputRowType: RowType, i: nat)
    requires inputRowType.NFields() <= i < |table.columns|
    requires table.columns[i].identityGenerator.None? && table.columns[i].defaultValue.None?
    ensures ColumnExpr(table, registry, inputRowType, i) == Success(NullLit(table.columns[i].tInstance))
  {
  }

  /** An identity column gets NEXTVAL of its sequence, whatever its declared default; BY DEFAULT
      becomes IFNULL(supplied, NEXTVAL), any other identity NEXTVAL alone. */
  lemma IdentityColumnGetsNextVal(table: UserTable, registry: Registry, inputRowType: RowType, i: nat)
    requires i < |table.columns| && table.columns[i].identityGenerator.Some?
    ensures var column := table.columns[i];
      var ri := registry.nextValResult(column.nullable);
      var next := NextVal(column.identityGenerator.value, ri);
      var next' := if column.tInstance != ri then Cast(next, column.tInstance) else next;
      ColumnExpr(table, registry, inputRowType, i) ==
        Success(if column.defaultIdentity == Some(true) then IfNull(BaseExpr(table, inputRowType, i), next') else next')
  {
  }

  /** A column with a default and no generator gets IFNULL(uncast field, default literal); past
      the input's fields it throws. */
  lemma DefaultUsesUncastField(table: UserTable, registry: Registry, inputRowType: RowType, i: nat)
    requires i < |table.columns| && table.columns[i].identityGenerator.None? && table.columns[i].defaultValue.Some?
    ensures var column := table.columns[i];
      ColumnExpr(table, registry, inputRowType, i) ==
        if i < inputRowType.NFields() then
          Success(IfNull(Field(inputRowType.fieldTypes[i], i), DefaultLit(column.tInstance, column.defaultValue.value, registry.castFromVarchar(column.tInstance.typeClass))))
        else Failure(IndexOutOfBounds(i, inputRowType.NFields()))
  {
  }

  /** The key projection lists the key columns in key order, each as the field at its position. */
  lemma {:induction false} KeyProjectionsInKeyOrder(keyColumns: seq<IndexColumn>, rowType: RowType, k: nat)
    requires k <= |keyColumns|
    ensures var r := KeyProjectionsFrom(keyColumns, rowType, k);
      && (r.Success? <==> forall j :: k <= j < |keyColumns| ==> keyColumns[j].column.position < rowType.NFields())
      && (r.Success? ==> |r.value| == |keyColumns| - k && forall j :: k <= j < |keyColumns| ==>
            r.value[j - k] == Field(rowType.fieldTypes[keyColumns[j].column.position], keyColumns[j].column.position))
    decreases |keyColumns| - k
  {
    if k < |keyColumns| {
      KeyProjectionsInKeyOrder(keyColumns, rowType, k + 1);
    }
  }

  // ----- What the projected row evaluates to -----

  /** What evaluation needs: the supplied parameters and the uninterpreted cast, NEXTVAL and default conversions. */
  datatype Env = Env(
    parameters: seq<Value>,
    cast: (Value, TInstance) -> Value,
    nextVal: SequenceName -> Value,
    defaultValue: (TInstance, string, bool) -> Value)

  /** A cast maps null to null and only null to null. */
  ghost predicate NullPreservingCast(env: Env)
  {
    forall v, t :: (env.cast(v, t) == NullValue) <==> (v == NullValue)
  }

  /** Value of an expression over the values-scan row, whose field i is parameter i. */
  function Eval(e: Expr, env: Env): Value
  {
    match e
    case Parameter(i, _) => if i < |env.parameters| then env.parameters[i] else NullValue
    case Field(_, i) => if i < |env.parameters| then env.parameters[i] else NullValue
    case NullLit(_) => NullValue
    case Cast(x, t) => env.cast(Eval(x, env), t)
    case NextVal(sq, _) => env.nextVal(sq)
    case IfNull(a, b) => if Eval(a, env) != NullValue then Eval(a, env) else Eval(b, env)
    case DefaultLit(t, text, viaCast) => env.defaultValue(t, text, viaCast)
  }

  /** The value of an identity column's NEXTVAL expression, cast to the column type when needed. */
  function NextValue(registry: Registry, env: Env, column: Column): Value
    requires column.identityGenerator.Some?
  {
    var ri := registry.nextValResult(column.nullable);
    var next := env.nextVal(column.identityGenerator.value);
    if column.tInstance != ri then env.cast(next, column.tInstance) else next
  }

  /** NEXTVAL's expression evaluates to the sequence value; BY DEFAULT lets a non-null supplied value win. */
  lemma EvalSequenceGenerator(registry: Registry, env: Env, column: Column, e: Expr)
    requires column.identityGenerator.Some?
    ensures Eval(SequenceGenerator(registry, column.identityGenerator.value, column, Some(e)), env) ==
      if column.defaultIdentity == Some(true) && Eval(e, env) != NullValue then Eval(e, env) else NextValue(registry, env, column)
  {
    var ri := registry.nextValResult(column.nullable);
    var seqExpr := NextVal(column.identityGenerator.value, ri);
    var seqExpr' := if column.tInstance != ri then Cast(seqExpr, column.tInstance) else seqExpr;
    assert Eval(seqExpr', env) == NextValue(registry, env, column);
  }

  /**
   * The resolution order for a supplied column: an explicit non-null value wins over a BY DEFAULT
   * identity and over a declared default; an ALWAYS identity ignores the explicit value; with a
   * default, the explicit value is taken uncast; with neither, the (cast) explicit value or null.
   */
  lemma ResolutionOrder(table: UserTable, registry: Registry, env: Env, inputRowType: RowType, i: nat)
    requires i < |table.columns| && i < inputRowType.NFields() && i < |env.parameters|
    requires NullPreservingCast(env)
    requires ColumnExpr(table, registry, inputRowType, i).Success?
    ensures var column := table.columns[i];
      var supplied := env.parameters[i];
      var given := if column.tInstance != inputRowType.fieldTypes[i] then env.cast(supplied, column.tInstance) else supplied;
      var v := Eval(ColumnExpr(table, registry, inputRowType, i).value, env);
      if column.identityGenerator.Some? then
        v == (if column.defaultIdentity == Some(true) && supplied != NullValue then given else NextValue(registry, env, column))
      else if column.defaultValue.Some? then
        v == (if supplied != NullValue then supplied
              else env.defaultValue(column.tInstance, column.defaultValue.value, registry.castFromVarchar(column.tInstance.typeClass)))
      else
        v == given && (v == NullValue <==> supplied == NullValue)
  {
    var column := table.columns[i];
    var supplied := env.parameters[i];
    var base := BaseExpr(table, inputRowType, i);
    assert Eval(base, env) == NullValue <==> supplied == NullValue by {
      if column.tInstance != inputRowType.fieldTypes[i] {
        assert Eval(base, env) == env.cast(supplied, column.tInstance);
      }
    }
    if column.identityGenerator.Some? {
      EvalSequenceGenerator(registry, env, column, base);
    }
  }

  /** A column the input does not supply: NEXTVAL for an identity, null otherwise. */
  lemma UnsuppliedResolution(table: UserTable, registry: Registry, env: Env, inputRowType: RowType, i: nat)
    requires inputRowType.NFields() <= i < |table.columns|
    requires ColumnExpr(table, registry, inputRowType, i).Success?
    ensures var column := table.columns[i];
      var v := Eval(ColumnExpr(table, registry, inputRowType, i).value, env);
      if column.identityGenerator.Some? then v == NextValue(registry, env, column)
      else v == NullValue
  {
    if table.columns[i].identityGenerator.Some? {
      EvalSequenceGenerator(registry, env, table.columns[i], BaseExpr(table, inputRowType, i));
    }
  }
}
