/**
 * The later WebSQL variant of the store: a wider type mapping, an error
 * handler that answers before it throws, and a batchUpdate that wraps the
 * shared batch in one browser transaction.
 */
module WebSqlite {
  import opened Values
  import opened RowStore
  import WebSqlStore

  /** `getSQLMapping`: the SQLite column type or expression of a declared type; the length is ignored. */
  function GetSqlMapping(fieldType: string, length: Option<int>): (r: string)
    ensures fieldType == "string" ==> r == "text"
    ensures fieldType == "date" ==> r == "integer"
    ensures fieldType == "autoincrement" ==> r == "integer primary key autoincrement"
    ensures fieldType == "now()" ==> r == "datetime('now')"
    ensures fieldType !in {"string", "date", "autoincrement", "now()"} ==> r == fieldType
  {
    match fieldType
    case "string" => "text"
    case "date" => "integer"
    case "autoincrement" => "integer primary key autoincrement"
    case "now()" => "datetime('now')"
    case _ => fieldType
  }

  /** The later mapping extends the earlier one: they differ only on the two types it adds. */
  lemma MappingExtendsSqlType(fieldType: string, length: Option<int>)
    ensures fieldType != "autoincrement" && fieldType != "now()" ==>
              GetSqlMapping(fieldType, length) == WebSqlStore.GetSqlType(fieldType, length)
    ensures fieldType == "autoincrement" || fieldType == "now()" ==>
              GetSqlMapping(fieldType, length) != WebSqlStore.GetSqlType(fieldType, length)
  {
  }

  /** `onError`: the statement's callback receives the composed error before it is thrown. */
  function OnError(message: string, sql: string, params: seq<string>): (r: Outcome<Row>)
    ensures r == WebSqlStore.OnSqlError(message, sql, params)
  {
    Failure(WebSqlStore.SqlErrorMessage(message, sql, params))
  }

  /** A WebSQL store: the shared row store, the browser database handle and the open transaction. */
  class WebSqliteDatabase {
    const store: Database
    const name: string
    var db: Option<Handle>
    var transaction: Option<Handle>

    /** `initialize(dbname)`: no handle yet, no transaction. */
    constructor (dbName: string, store: Database)
      ensures this.store == store && name == dbName
      ensures db.None? && transaction.None?
    {
      this.store := store;
      name := dbName;
      db := None;
      transaction := None;
    }

    /**
     * `open`: an existing handle is kept, otherwise the newly opened one is
     * taken; the callback is called only when one that is a function was given.
     */
    method Open(callbackIsFunction: bool, handle: Handle) returns (called: bool)
      modifies this`db
      ensures old(db).Some? ==> db == old(db)
      ensures old(db).None? ==> db == Some(handle)
      ensures called == callbackIsFunction
    {
      if db.None? {
        db := Some(handle);
      }
      called := callbackIsFunction;
    }

    /**
     * `batchUpdate`: the shared batch runs inside the browser transaction
     * `tx`; when it answers, `transaction` is cleared and its answer is passed
     * on unchanged. The batch always answers, so the transaction never stays recorded.
     */
    method BatchUpdate(data: Option<BatchData>, tx: Handle) returns (r: Outcome<Option<nat>>)
      requires db.Some?
      modifies this`transaction, store`tables, store`draws
      ensures Step(store.tables, store.draws, r) ==
              BatchSpec(old(store.tables), old(store.draws), store.rng, store.primaryKey, data)
      ensures !r.NoCallback? && transaction.None?
    {
      transaction := Some(tx);
      r := store.BatchUpdate(data);
      if !r.NoCallback? {
        transaction := None;
      }
    }
  }
}
