/** Names shared by the schema helpers. */
module AisNames {
  /** A qualified table name: schema and table. */
  datatype TableName = TableName(schemaName: string, tableName: string)
}
