/** The row model shared by the operators: type classes, type instances, row types, values and rows. */
module Rows {
  import opened Common

  /** A type class (VARCHAR, BIGINT, BOOLEAN, ...), compared by identity of its name. */
  datatype TClass = TClass(name: string)

  /** A concrete type: its class plus attributes (length, precision, ...) and nullability. */
  datatype TInstance = TInstance(typeClass: TClass, attributes: seq<int>, nullable: bool)

  const VARCHAR: TClass := TClass("VARCHAR")
  const BOOLEAN: TClass := TClass("BOOLEAN")
  const BIGINT: TClass := TClass("BIGINT")

  /** Row types are told apart by their registry id, not by their shape. */
  datatype RowType = RowType(id: nat, fieldTypes: seq<TInstance>) {
    function NFields(): nat { |fieldTypes| }
  }

  /** The contents of one field. */
  datatype Value = NullValue | BoolValue(b: bool) | IntValue(i: int) | StringValue(s: string)

  /** A typed value source: its type instance (which Java allows to be null) and its contents. */
  datatype PValue = PValue(tInstance: Option<TInstance>, value: Value)

  /** `TInstance.tClass`: the class of a possibly-null instance. */
  function TClassOf(t: Option<TInstance>): (c: Option<TClass>)
    ensures c.Some? <==> t.Some?
    ensures t.Some? ==> c.value == t.value.typeClass
  {
    match t
    case None => None
    case Some(ti) => Some(ti.typeClass)
  }

  /** A row of some row type, as produced by a cursor. */
  datatype Row = Row(rowType: RowType, fields: seq<Value>)
}
