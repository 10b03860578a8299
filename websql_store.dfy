/**
 * The first WebSQL (browser SQLite) variant of the store: its column type
 * mapping, the CREATE TABLE it assembles, its own batchUpdate that opens a
 * transaction around the batch loop, its date conversion and its SQL error
 * handler. Row operations are the shared store's (module RowStore).
 */
module WebSqlStore {
  import opened Values
  import opened RowStore
  import opened Schema

  /** `getSQLType`: the SQLite column type of a declared field type; the length is ignored. */
  function GetSqlType(fieldType: string, length: Option<int>): (r: string)
    ensures fieldType == "string" ==> r == "text"
    ensures fieldType == "date" ==> r == "integer"
    ensures fieldType != "string" && fieldType != "date" ==> r == fieldType
  {
    if fieldType == "string" then "text"
    else if fieldType == "date" then "integer"
    else fieldType
  }

  /** One column clause: the name, the SQL type and the nullability word, joined by blanks. */
  function ColumnClause(f: FieldDef, key: string): string {
    Join([f.name, GetSqlType(FieldType(f), f.length), Nullability(f, key)], " ")
  }

  /** The clauses of a field list, in field order. */
  function Clauses(fields: seq<FieldDef>, key: string): seq<string> {
    if fields == [] then [] else Clauses(fields[..|fields| - 1], key) + [ColumnClause(fields[|fields| - 1], key)]
  }

  lemma {:induction false} ClausesInOrder(fields: seq<FieldDef>, key: string)
    ensures |Clauses(fields, key)| == |fields|
    ensures forall i :: 0 <= i < |fields| ==> Clauses(fields, key)[i] == ColumnClause(fields[i], key)
  {
    if fields != [] {
      ClausesInOrder(fields[..|fields| - 1], key);
    }
  }

  /** Everything between the parentheses of the CREATE TABLE: one clause per field, then the key. */
  function Columns(fields: seq<FieldDef>, key: string): seq<string> {
    Clauses(fields, key) + [PrimaryKeyClause(key)]
  }

  /**
   * One clause per field in field order, each ending in NOT NULL exactly when
   * the field is required or is the key, and the PRIMARY KEY clause last.
   */
  lemma ColumnsShape(fields: seq<FieldDef>, key: string)
    ensures |Columns(fields, key)| == |fields| + 1
    ensures Columns(fields, key)[|fields|] == PrimaryKeyClause(key)
    ensures forall i :: 0 <= i < |fields| ==>
              Columns(fields, key)[i] ==
                fields[i].name + " " + GetSqlType(FieldType(fields[i]), fields[i].length) + " " +
                (if IsRequired(fields[i], key) then "NOT NULL" else "NULL")
  {
    ClausesInOrder(fields, key);
    forall i | 0 <= i < |fields|
      ensures Columns(fields, key)[i] ==
                fields[i].name + " " + GetSqlType(FieldType(fields[i]), fields[i].length) + " " +
                (if IsRequired(fields[i], key) then "NOT NULL" else "NULL")
    {
      JoinThree(fields[i].name, GetSqlType(FieldType(fields[i]), fields[i].length), Nullability(fields[i], key), " ");
    }
  }

  /** `date`: a given date's epoch milliseconds, otherwise the current time's. */
  function Date(date: Option<int>, now: int): (r: int)
    ensures date.Some? ==> r == date.value
    ensures date.None? ==> r == now
  {
    date.GetOr(now)
  }

  /** The message of a failed statement: the driver's message, the SQL and its parameters. */
  function SqlErrorMessage(message: string, sql: string, params: seq<string>): (r: string)
    ensures |message| <= |r| && r[..|message|] == message
  {
    message + " in SQL: " + sql + " [" + Join(params, ",") + "]"
  }

  /** `onSQLError` as written: `throwSQLError` throws first, so the callback after it is never reached. */
  function OnSqlErrorAsWritten(message: string, sql: string, params: seq<string>): Outcome<Row> {
    NoCallback
  }

  /** `onSQLError` as intended: the statement's callback receives the composed error. */
  function OnSqlError(message: string, sql: string, params: seq<string>): (r: Outcome<Row>)
    ensures r.Failure? && |message| <= |r.message| && r.message[..|message|] == message
  {
    Failure(SqlErrorMessage(message, sql, params))
  }

  /** A failed statement never reaches its caller as written, and always does as intended. */
  lemma SqlErrorIsSwallowed(message: string, sql: string, params: seq<string>)
    ensures OnSqlErrorAsWritten(message, sql, params).NoCallback?
    ensures OnSqlError(message, sql, params).Failure?
  {
  }

  /** Whether `batchUpdate` gets as far as opening a transaction: there is at least one entry. */
  predicate Opens(data: Option<BatchData>) {
    data.Some? && data.value.tables.Some? && EntryCount(data.value.tables.value) > 0
  }

  /** A WebSQL store: the shared row store, the browser database handle and the open transaction. */
  class WebSqliteDatabase {
    const store: Database
    const name: string
    var db: Option<Handle>
    var transaction: Option<Handle>

    /** `initialize(dbname)`: no handle yet, no transaction. */
    constructor (dbName: string, store: Database)
      ensures this.store == store && name == dbName
      ensures db.None? && transaction.None?
    {
      this.store := store;
      name := dbName;
      db := None;
      transaction := None;
    }

    /** `open`: an existing handle is kept, otherwise the newly opened one is taken; the callback is always called. */
    method Open(handle: Handle) returns (called: bool)
      modifies this`db
      ensures old(db).Some? ==> db == old(db)
      ensures old(db).None? ==> db == Some(handle)
      ensures called
    {
      if db.None? {
        db := Some(handle);
      }
      called := true;
    }

    /** `createTable`: the DROP and the CREATE statements it issues, in order. */
    method CreateTable(table: string, model: TableModel) returns (statements: seq<string>)
      ensures statements == [DropSql(table), CreateSql(table, Columns(model.fields, KeyOf(model, store.primaryKey)))]
    {
      var key := KeyOf(model, store.primaryKey);
      var columns := [];
      var i := 0;
      while i < |model.fields|
        invariant 0 <= i <= |model.fields|
        invariant columns == Clauses(model.fields[..i], key)
      {
        assert model.fields[..i + 1][..i] == model.fields[..i];
        columns := columns + [ColumnClause(model.fields[i], key)];
        i := i + 1;
      }
      assert model.fields[..i] == model.fields;
      columns := columns + [PrimaryKeyClause(key)];
      statements := [DropSql(table), CreateSql(table, columns)];
    }

    /**
     * `batchUpdate`: the shared batch semantics, with `transaction` set to
     * the browser's transaction while the entries are applied and cleared
     * after them.
     */
    method BatchUpdate(data: Option<BatchData>, tx: Handle) returns (r: Outcome<Option<nat>>)
      requires Opens(data) ==> db.Some?
      modifies this`transaction, store`tables, store`draws
      ensures Step(store.tables, store.draws, r) ==
              BatchSpec(old(store.tables), old(store.draws), store.rng, store.primaryKey, data)
      ensures Opens(data) ==> transaction.None?
      ensures !Opens(data) ==> transaction == old(transaction)
    {
      if data.None? || data.value.tables.None? {
        return Success(None);
      }
      var delta := data.value.tables.value;
      var count := CountEntries(delta);
      if count == 0 {
        return Success(Some(0));
      }
      transaction := Some(tx);
      var status := store.ApplyDelta(delta);
      transaction := None;
      r := Answer(status, count);
    }
  }
}
