/**
 * The later MySQL variant of the store. Its `open` and `executeSQL` are the
 * same as the earlier variant's (module MysqlStore, class Connection); what
 * differs is the type mapping, which also knows auto-increment keys.
 */
module Mysql {
  import opened Values
  import MysqlStore

  /** `getSQLMapping`: the MySQL column type of a declared type. */
  function GetSqlMapping(fieldType: string, length: Option<int>): (r: string)
    ensures fieldType == "string" && length.Some? && length.value != 0 ==>
              r == "varchar(" + DecimalString(length.value) + ")"
    ensures fieldType == "string" && (length.None? || length.value == 0) ==> r == "varchar(40)"
    ensures fieldType == "date" ==> r == "datetime"
    ensures fieldType == "autoincrement" ==> r == "int PRIMARY KEY AUTO_INCREMENT"
    ensures fieldType !in {"string", "date", "autoincrement"} ==> r == fieldType
  {
    match fieldType
    case "string" =>
      if length.Some? && length.value != 0 then "varchar(" + DecimalString(length.value) + ")" else "varchar(40)"
    case "date" => "datetime"
    case "autoincrement" => "int PRIMARY KEY AUTO_INCREMENT"
    case _ => fieldType
  }

  /** The later mapping extends the earlier one: it differs only on `autoincrement`. */
  lemma MappingExtendsSqlType(fieldType: string, length: Option<int>)
    ensures fieldType != "autoincrement" ==>
              GetSqlMapping(fieldType, length) == MysqlStore.GetSqlType(fieldType, length)
    ensures fieldType == "autoincrement" ==>
              GetSqlMapping(fieldType, length) != MysqlStore.GetSqlType(fieldType, length)
  {
  }
}
