/**
 * The per-table schema declaration that createTable reads, shared by the
 * MySQL and WebSQL stores: an ordered field list and an optional primary
 * key, and the comma join the stores use to assemble a CREATE TABLE.
 */
module Schema {
  import opened Values

  /** One field: `{name, type, length, required, autoincrement}`; absent members are `None` or false. */
  datatype FieldDef = FieldDef(name: string, fieldType: Option<string>, length: Option<int>,
                               required: bool, autoincrement: bool)

  /** `{fields: [...], primaryKey}` */
  datatype TableModel = TableModel(fields: seq<FieldDef>, primaryKey: Option<string>)

  /** `columnDef.type || "string"` */
  function FieldType(f: FieldDef): (r: string)
    ensures r == "string" || (f.fieldType.Some? && r == f.fieldType.value)
  {
    if f.fieldType.Some? && f.fieldType.value != "" then f.fieldType.value else "string"
  }

  /** `model.primaryKey || me.getPrimaryKey()` */
  function KeyOf(model: TableModel, storeKey: string): (r: string)
    ensures model.primaryKey.Some? && model.primaryKey.value != "" ==> r == model.primaryKey.value
    ensures model.primaryKey.None? || model.primaryKey.value == "" ==> r == storeKey
  {
    if model.primaryKey.Some? && model.primaryKey.value != "" then model.primaryKey.value else storeKey
  }

  /** `columnDef.required || columnDef.name === primaryKey` */
  predicate IsRequired(f: FieldDef, key: string) {
    f.required || f.name == key
  }

  /** The nullability word of a column: the key column and required fields may not hold NULL. */
  function Nullability(f: FieldDef, key: string): (r: string)
    ensures r == "NOT NULL" <==> IsRequired(f, key)
    ensures r == "NULL" <==> !IsRequired(f, key)
  {
    if IsRequired(f, key) then "NOT NULL" else "NULL"
  }

  /** `parts.join(sep)` */
  function Join(parts: seq<string>, sep: string): (r: string)
    ensures parts == [] ==> r == ""
    ensures |parts| == 1 ==> r == parts[0]
  {
    if parts == [] then ""
    else if |parts| == 1 then parts[0]
    else parts[0] + sep + Join(parts[1..], sep)
  }

  lemma JoinThree(a: string, b: string, c: string, sep: string)
    ensures Join([a, b, c], sep) == a + sep + b + sep + c
  {
    assert [a, b, c][1..] == [b, c];
    assert [b, c][1..] == [c];
  }

  /** `"PRIMARY KEY(" + primaryKey + ")"`, the clause both stores put last. */
  function PrimaryKeyClause(key: string): string {
    "PRIMARY KEY(" + key + ")"
  }

  /** `"CREATE TABLE " + name + "(" + columns.join(",") + ")"` */
  function CreateSql(name: string, columns: seq<string>): string {
    "CREATE TABLE " + name + "(" + Join(columns, ",") + ")"
  }

  function DropSql(name: string): string {
    "DROP TABLE IF EXISTS " + name
  }
}
