/**
 * Update_Returning: for each row pulled from its input cursor, computes the new row with the
 * update function, has the query context check the new row's constraints, has the store adapter
 * update the row, and returns the new row. Its cursor is a small state machine: idle, active, or
 * destroyed (no input any more).
 */
module UpdateReturning {
  import opened Common
  import opened Rows

  datatype Error =
    | NullUpdateFunction     // ArgumentValidation.notNull("update lambda", ...)
    | LifecycleViolation     // CursorLifecycle.checkIdle / checkIdleOrActive
    | QueryCanceled          // checkQueryCancelation
    | ConstraintViolation(row: Row)
    | StorageError(oldRow: Row, newRow: Row)

  /** The update lambda: computes the new version of a row. */
  datatype UpdateFunction = UpdateFunction(evaluate: Row -> Row)

  /** The compiled, immutable operator. `inputOperator` identifies the child plan. */
  datatype Operator = UpdateReturningOp(inputOperator: nat, updateFunction: UpdateFunction, usePValues: bool)

  /** The operator's constructor: a missing update function is rejected. */
  function NewOperator(inputOperator: nat, updateFunction: Option<UpdateFunction>, usePValues: bool): (r: Result<Operator, Error>)
    ensures r.Failure? <==> updateFunction.None?
    ensures r.Failure? ==> r.error == NullUpdateFunction
    ensures r.Success? ==>
      r.value.inputOperator == inputOperator && r.value.updateFunction == updateFunction.value
      && r.value.usePValues == usePValues
  {
    match updateFunction
    case None => Failure(NullUpdateFunction)
    case Some(f) => Success(UpdateReturningOp(inputOperator, f, usePValues))
  }

  /** Everything the cursor does to its collaborators, in order. */
  datatype Event =
    | InputOpened
    | InputPulled
    | InputClosed
    | InputDestroyed
    | ConstraintsChecked(newRow: Row)
    | RowUpdated(oldRow: Row, newRow: Row)

  /**
   * The query context as seen by this operator: a cancellation flag that another thread can set,
   * the constraint check, and whether the store adapter's updateRow fails for a pair of rows.
   */
  class QueryContext {
    var canceled: bool
    const violatesConstraints: Row -> bool
    const updateFails: (Row, Row) -> bool

    constructor (violatesConstraints: Row -> bool, updateFails: (Row, Row) -> bool)
      ensures !canceled
      ensures this.violatesConstraints == violatesConstraints && this.updateFails == updateFails
    {
      canceled := false;
      this.violatesConstraints := violatesConstraints;
      this.updateFails := updateFails;
    }
  }

  /** An abstract input cursor: the rows its operator yields plus a read position. */
  class InputCursor {
    const rows: seq<Row>
    var position: nat
    var isOpen: bool
    var destroyed: bool

    constructor (rows: seq<Row>)
      ensures this.rows == rows && position == 0 && !isOpen && !destroyed
    {
      this.rows := rows;
      position := 0;
      isOpen := false;
      destroyed := false;
    }

    method Open()
      modifies this
      ensures isOpen && position == 0 && destroyed == old(destroyed)
    {
      isOpen := true;
      position := 0;
    }

    /** The next row while open; a closed input yields nothing. */
    method Next() returns (r: Option<Row>)
      modifies this
      ensures isOpen && old(position) < |rows| ==> r == Some(rows[old(position)]) && position == old(position) + 1
      ensures !isOpen || old(position) >= |rows| ==> r == None && position == old(position)
      ensures isOpen == old(isOpen) && destroyed == old(destroyed)
    {
      if isOpen && position < |rows| {
        r := Some(rows[position]);
        position := position + 1;
      } else {
        r := None;
      }
    }

    method Close()
      modifies this
      ensures !isOpen && position == old(position) && destroyed == old(destroyed)
    {
      isOpen := false;
    }

    method Destroy()
      modifies this
      ensures destroyed && isOpen == old(isOpen) && position == old(position)
    {
      destroyed := true;
    }
  }

  /** The cursor of Update_Returning. `input == null` means destroyed. */
  class Execution {
    var input: InputCursor?
    var idle: bool
    const context: QueryContext
    const updateFunction: UpdateFunction
    const usePValues: bool
    /** What the cursor has done to its input, the context and the adapter so far. */
    ghost var trace: seq<Event>

    /** The input is open exactly while the cursor is active, and is never destroyed under it. */
    ghost predicate Valid()
      reads this, input
    {
      input != null ==> input.isOpen == !idle && !input.destroyed
    }

    predicate IsIdle()
      reads this
    {
      input != null && idle
    }

    predicate IsActive()
      reads this
    {
      input != null && !idle
    }

    predicate IsDestroyed()
      reads this
    {
      input == null
    }

    constructor (context: QueryContext, input: InputCursor, updateFunction: UpdateFunction, usePValues: bool)
      requires !input.isOpen && !input.destroyed
      ensures Valid()
      ensures IsIdle() && !IsActive() && !IsDestroyed()
      ensures this.input == input && this.context == context
      ensures this.updateFunction == updateFunction && this.usePValues == usePValues
      ensures trace == []
    {
      this.input := input;
      this.idle := true;
      this.context := context;
      this.updateFunction := updateFunction;
      this.usePValues := usePValues;
      trace := [];
    }

    /** Opening is allowed only from idle; it opens the input and makes the cursor active. */
    method Open() returns (r: Outcome<Error>)
      requires Valid()
      modifies this, input
      ensures Valid() && input == old(input)
      ensures r.Fail? <==> !old(IsIdle())
      ensures r.Fail? ==>
        r.error == LifecycleViolation && idle == old(idle) && trace == old(trace)
        && (input != null ==> input.position == old(input.position))
      ensures r.Pass? ==> IsActive() && trace == old(trace) + [InputOpened] && input.position == 0
    {
      if !IsIdle() {
        return Fail(LifecycleViolation);
      }
      input.Open();
      idle := false;
      trace := trace + [InputOpened];
      r := Pass;
    }

    /**
     * Pulls one row. Accepted when idle or active. Cancellation is checked before the input is
     * pulled; for a pulled row r the constraints of f(r) are checked strictly before the adapter's
     * updateRow(r, f(r)), and f(r) is returned. An exhausted input yields None and no other call.
     */
    method Next() returns (r: Result<Option<Row>, Error>)
      requires Valid()
      modifies this, input
      ensures Valid() && input == old(input) && idle == old(idle)
      ensures old(IsDestroyed()) ==> r == Failure(LifecycleViolation) && trace == old(trace)
      ensures !old(IsDestroyed()) && old(context.canceled) ==>
                r == Failure(QueryCanceled) && trace == old(trace) && input.position == old(input.position)
      ensures !old(IsDestroyed()) && !old(context.canceled) ==>
                var pos := old(input.position);
                var rows := input.rows;
                if idle || pos >= |rows| then
                  r == Success(None) && trace == old(trace) + [InputPulled] && input.position == pos
                else
                  var newRow := updateFunction.evaluate(rows[pos]);
                  input.position == pos + 1 &&
                  if context.violatesConstraints(newRow) then
                    r == Failure(ConstraintViolation(newRow))
                    && trace == old(trace) + [InputPulled, ConstraintsChecked(newRow)]
                  else
                    trace == old(trace) + [InputPulled, ConstraintsChecked(newRow), RowUpdated(rows[pos], newRow)]
                    && if context.updateFails(rows[pos], newRow) then r == Failure(StorageError(rows[pos], newRow))
                       else r == Success(Some(newRow))
    {
      if !(IsIdle() || IsActive()) {
        return Failure(LifecycleViolation);
      }
      if context.canceled {
        return Failure(QueryCanceled);
      }
      var inputRow := input.Next();
      trace := trace + [InputPulled];
      match inputRow {
        case None =>
          r := Success(None);
        case Some(row) =>
          var newRow := updateFunction.evaluate(row);
          trace := trace + [ConstraintsChecked(newRow)];
          if context.violatesConstraints(newRow) {
            return Failure(ConstraintViolation(newRow));
          }
          trace := trace + [RowUpdated(row, newRow)];
          if context.updateFails(row, newRow) {
            return Failure(StorageError(row, newRow));
          }
          r := Success(Some(newRow));
      }
    }

    /** From active, closes the input once and returns to idle; from idle, touches nothing. */
    method Close() returns (r: Outcome<Error>)
      requires Valid()
      modifies this, input
      ensures Valid() && input == old(input)
      ensures r.Fail? <==> old(IsDestroyed())
      ensures r.Fail? ==> r.error == LifecycleViolation && trace == old(trace)
      ensures old(IsActive()) ==>
        IsIdle() && trace == old(trace) + [InputClosed] && input.position == old(input.position)
      ensures old(IsIdle()) ==> IsIdle() && trace == old(trace) && unchanged(input)
    {
      if !(IsIdle() || IsActive()) {
        return Fail(LifecycleViolation);
      }
      if !idle {
        input.Close();
        idle := true;
        trace := trace + [InputClosed];
      }
      r := Pass;
    }

    /** Closes if needed, destroys the input and drops it; destroying twice does nothing. */
    method Destroy()
      requires Valid()
      modifies this, input
      ensures Valid() && IsDestroyed()
      ensures old(IsActive()) ==> trace == old(trace) + [InputClosed, InputDestroyed]
      ensures old(IsIdle()) ==> trace == old(trace) + [InputDestroyed]
      ensures old(IsDestroyed()) ==> trace == old(trace) && idle == old(idle)
      ensures old(input) != null ==> old(input).destroyed && !old(input).isOpen
    {
      if input != null {
        var _ := Close();
        input.Destroy();
        input := null;
        trace := trace + [InputDestroyed];
      }
    }
  }

  /** `cursor(context)`: a fresh, idle cursor over a fresh input cursor, using the operator's update function. */
  method Cursor(op: Operator, context: QueryContext, input: InputCursor) returns (e: Execution)
    requires !input.isOpen && !input.destroyed
    ensures fresh(e) && e.Valid() && e.IsIdle() && e.trace == []
    ensures e.input == input && e.context == context
    ensures e.updateFunction == op.updateFunction && e.usePValues == op.usePValues
  {
    e := new Execution(context, input, op.updateFunction, op.usePValues);
  }

  /** Exactly one of idle, active and destroyed describes any cursor. */
  lemma ExactlyOneState(e: Execution)
    ensures e.IsIdle() || e.IsActive() || e.IsDestroyed()
    ensures !(e.IsIdle() && e.IsActive()) && !(e.IsIdle() && e.IsDestroyed()) && !(e.IsActive() && e.IsDestroyed())
  {
  }
}
