# Synchronizer core, modelled in Dafny

The synchronizer keeps a browser-side SQL store and a server-side MySQL
store in step through a change log. This project models the parts of it that
decide what is stored, logged and shipped:

- **Row store** (`shared/database.js`, module `RowStore`, class `Database`):
  - `save`, `add`, `update`, `remove`, `exist`, `query`, `find`, `findAll` and `findById`;
  - `batchUpdate`, which applies a delta of rows and tombstones.

  Each operation is a method. Its postcondition equates the new tables, the
  position of the guid generator and the reported outcome with a
  specification function (`AddSpec`, `SaveSpec`, `BatchSpec`, ...). The
  lemmas are stated about those functions. `executeSQL` becomes an in-memory
  interpreter (module `Sql`) of exactly the statements the store issues:
  - SELECT with `col = ?`, with `timestamp > ? ORDER BY timestamp`, or with no WHERE clause;
  - INSERT;
  - UPDATE and DELETE keyed by `id`.

  The interpreter uses SQL NULL semantics. It refuses a second row with the
  same `id`, as a PRIMARY KEY on `id` does.
- **Change capture** (`client/synchronizer.client.js`, module `SyncClient`):
  - `logChange` over `readLogForObject`, with the coalescing rules:
    - an insert followed by an update stays an insert;
    - an insert followed by a delete removes the entry;
    - any other change rewrites the entry in place;
  - the invariant that the log holds at most one entry per object;
  - `init`'s adoption of the client id;
  - the payload of `exchangeData` and `requestAllData`.
- **Change extraction** (`shared/synchronizer.js`, module `Sync`):
  - `getChangedData`: log entries after a start time, oldest first; a tombstone for each deletion, and the current row of each other change;
  - `getAllData`: every schema table except those in `noLog`, with each row tagged by its table.
- **Store variants**:
  - the WebSQL stores (`client/database.websqlite.js`, module `WebSqlStore`; `client/websqlite.js`, module `WebSqlite`);
  - the MySQL stores (`server/database.mysql.js`, module `MysqlStore`; `server/mysql.js`, module `Mysql`).

  They cover:
  - SQL type mappings, column clauses and CREATE TABLE statements;
  - change-capture triggers;
  - the MySQL date rendering;
  - the `transaction` field around a batch;
  - the connection's `opened` guard;
  - the SQL error handlers.
- **Utilities** (`shared/utils.js`, module `Utils`):
  - `respond`;
  - the classification of an ajax reply;
  - the `guid` layout;
  - the configuration dictionary;
  - `extend`'s members;
  - the listener lists.

Callbacks become return values of type `Outcome`:
- `Success(value)`;
- `Failure(message)`;
- `NoCallback`, where the code only logs a warning and never calls back (the zero-rows-affected paths of `add`, `update` and `remove`).

Asynchronous fan-out is processed sequentially, and the first error ends a
batch. The guid generator is a parameter `rng: nat -> Draw`, one draw per
`Math.random()` call. The store counts its draws.

One observation the model proves about how the parts fit together is worth
stating: a tombstone that `getChangedData` ships carries `table` beside
`id`. `batchUpdate`'s test for a deletion (exactly one key) therefore does
not recognise it, and dispatches such a tombstone to `save` instead of
`remove` (`Sync.ShippedTombstoneIsNotDeletedObject`).

## Model

| member | source | states |
|---|---|---|
| Utils.Respond | shared/utils.js:20-31 | Throws "Callback is not a function" exactly when the callback is defined but not a function, and calls nothing exactly when it is undefined. Otherwise the callback receives the error unchanged, and the result is null whenever there is an error and unchanged when there is none. |
| Utils.ClassifyReply | shared/utils.js:37-58 | Status 0 gives the error "Server is not responding". Status 200 gives the raw text when the body does not parse, the `error.message` as an error when the parsed object has one, the parsed object itself (its fields) otherwise, and null for a body that parses to null. Any other status gives the error `statusText : responseText`. The callback is always called. |
| Utils.RandomPieceShape | shared/utils.js:70-72 | `getRandomString` always yields exactly four lowercase hex digits: the leading 1 that adding 0x10000 produces is the character dropped. |
| Utils.GuidHasFormat | shared/utils.js:68-75 | Every guid, whatever the draws, is 36 characters: uppercase hex digits in 8-4-4-4-12 blocks with dashes at positions 8, 13, 18 and 23. |
| Utils.Config.Set | shared/utils.js:91-94 | Stores the value under the key, leaves other keys alone, and returns the value. |
| Utils.Config.Get | shared/utils.js:81-89 | Returns the stored value, or undefined when there is none. It warns exactly when the value is missing or falsy. |
| Utils.SetThenGet | shared/utils.js:81-94 | After `set(k, v)`, `get(k)` returns `v`, with a warning exactly when `v` is falsy. |
| Utils.Extend | shared/utils.js:96-151 | Fails with "Extending undefined parent." exactly when the parent is missing. A constructor parent's members become the inherited members, and `superclass` names them unless `def` sets its own; a truthy non-function parent inherits nothing and gets no `superclass`. The own members are those of `def` (none when `def` is missing) plus `initEvents`, `on` and `fireEvent`, which override members of `def` with those names. |
| Utils.ExtendTwice | shared/utils.js:115-118 | Through two levels of `extend`, the subclass's `superclass` is everything the middle class exposes, the middle class's members stay visible unless the subclass redefines them, and the base's members stay visible unless a later level redefines them. This is the chain `this.superclass.initialize` walks in client/database.websqlite.js:34. |
| Utils.Emitter.constructor | shared/utils.js:126-128 | `initEvents` starts with no listener lists, so none is empty. |
| Utils.Emitter.On | shared/utils.js:130-133 | Appends the handler to that event's list, creating the list when missing. Every other event's list is unchanged, and no list is ever empty. |
| Utils.Emitter.FireEvent | shared/utils.js:135-145 | `onComplete` runs at once exactly when the event has no list. Otherwise the event's handlers are dispatched in order, and there is at least one. |
| RowStore.Database.constructor | shared/database.js:23-43 | The primary key starts as `id`, and the query log starts as configured. |
| RowStore.Database.SetPrimaryKey | shared/database.js:40-42 | Sets the key that `add`, `update`, `save` and `batchUpdate` read. |
| RowStore.Database.SetQueryLog | shared/database.js:32-34 | Sets the query-log flag. |
| RowStore.Database.NewGuid | shared/database.js:231 | Takes the next eight draws and returns a guid in the 8-4-4-4-12 layout. |
| RowStore.BuildInsert | shared/database.js:231-245 | Columns, placeholders and values have equal length. The key is the first column, bound to the id. Every other field follows exactly once, bound to its value, and every placeholder is `?`. |
| RowStore.InsertedRow | shared/database.js:233-246 | The row that INSERT stores is the object with its key set to the id. |
| RowStore.BuildUpdate | shared/database.js:293-302 | One `field = ?` per non-key field, each field once, bound to its value. The key value is bound last, for `WHERE id = ?`. |
| RowStore.UpdatedFields | shared/database.js:293-302 | The SET list assigns exactly the object without its key. It is empty exactly when the object has no other field. |
| RowStore.DeleteNullFields | shared/database.js:157-165 | Every row keeps its other fields and values and loses every field whose value is null. No row is added or dropped. |
| RowStore.DeletedNullsAgree | shared/database.js:157-165 | That loop's result is the rows with their null fields stripped. |
| RowStore.Database.Query | shared/database.js:149-174 | An executeSQL error is reported. Otherwise the rows come back with their null fields deleted. This is the corrected order: see Findings. |
| RowStore.QueryErrorThrows | shared/database.js:155-170 | On a failing statement, `query` as written throws before reporting. The corrected `query` reports the error. |
| RowStore.Database.Find | shared/database.js:176-178 | `query` of the rows whose column equals the value. |
| RowStore.Database.FindAll | shared/database.js:180-182 | `query` of every row of the table. |
| RowStore.FindByIdReply | shared/database.js:184-197 | An error is passed on. More than one row is an error. One row is the answer, and none gives nothing. |
| RowStore.Database.FindById | shared/database.js:184-197 | The corrected `findById` over `query ... WHERE id = ?`. |
| RowStore.FindByIdCallsBackTwice | shared/database.js:190-193 | With two rows under one id, the code as written calls back twice: first with the error, then with the first row as a success. |
| RowStore.Database.Exist | shared/database.js:199-208 | An error is passed on. Otherwise the result is whether some row has that id. |
| RowStore.Database.Add | shared/database.js:210-247 | Uses the object's truthy key or else the next guid. Inserts the object under that id, and reports the id, the error, or (when no row is affected) no callback. |
| RowStore.AddThenFind | shared/database.js:210-247 | `add` succeeds exactly when the id is not taken. It then appends one row, the object under its id, which `findById` returns. On failure the store is unchanged. |
| RowStore.AddFresh | shared/database.js:231-246 | `add` without a key, when the next guid is unused, appends the object under that guid and consumes eight draws. |
| RowStore.Database.Update | shared/database.js:271-304 | Overwrites the non-key fields of the rows with the object's id. Reports the id, the error, or no callback when no row is affected. |
| RowStore.UpdateLone | shared/database.js:271-304 | When one row has the id, `update` merges the changes into that row only. |
| RowStore.Database.Remove | shared/database.js:249-269 | Deletes the rows with the object's id. Reports the number deleted, the error, or no callback when none was. |
| RowStore.RemoveLone | shared/database.js:249-269 | When one row has the id, `remove` deletes that row only, and `findById` then finds nothing. |
| RowStore.FindLone | shared/database.js:184-197 | When one row has the id, `findById` returns it without its null fields. |
| RowStore.Database.Save | shared/database.js:45-68 | Without a truthy key, `add`. Otherwise `exist`: update when found, add when not, and pass an `exist` error on with the store unchanged. |
| RowStore.SaveWithoutKeyAdds | shared/database.js:49-53 | `save` of an object without a truthy key is `add`, and it draws a guid. |
| RowStore.ReplaySave | shared/database.js:45-68 | Saving the same keyed object twice leaves the store, the generator and the answer as one save did. |
| RowStore.SaveKeepsIdUnique | shared/database.js:45-68 | `save` of a keyed object never leaves two rows with its id in a table that had at most one. |
| RowStore.ReplayRemove | shared/database.js:249-269 | A second `remove` of the same object changes nothing and never calls back. |
| RowStore.CrudRoundTrip | shared/database.js:184-304 | The store's CRUD round, on a fresh guid: `add` answers the guid, and `update` answers it and `findById` sees the change. `remove` then answers 1, `findById` finds nothing, and the tables are exactly as before. |
| RowStore.UpdateThenRemove | shared/database.js:249-304 | Update then delete of the only row with an id: the state and answer of each step. |
| RowStore.TombstoneShape | shared/database.js:81-83 | `isDeletedObject` holds exactly when the only key is the primary key and its value is truthy. |
| RowStore.CountEntries | shared/database.js:89-91 | The number of entries over all tables of the delta. |
| RowStore.Database.ApplyOne | shared/database.js:102-110 | A tombstone is removed and anything else is saved. Nothing is applied after an error. |
| RowStore.Database.ApplyDelta | shared/database.js:99-111 | Visits every entry of every table in order, stopping at the first error. |
| RowStore.Database.BatchUpdate | shared/database.js:70-112 | Null without `data.tables`, and 0 when no table holds an entry. Otherwise every entry is applied in order, and the batch always answers: with the first error, or else with the total entry count, an entry that affected no row counting as answered. This is the corrected counter: see Findings. |
| RowStore.BatchSpec | shared/database.js:70-112 | The corrected batch never leaves its caller unanswered, and a success carries null without `data.tables` and the entry count otherwise. |
| RowStore.BatchEdgeCases | shared/database.js:77-95 | Without `data.tables` the answer is null, and with only empty tables it is 0. The store is untouched in both cases. |
| RowStore.StoppedBatchStaysPut | shared/database.js:97-111 | Once an entry fails, no later entry changes the store. |
| RowStore.ReplayedTombstoneBatch | shared/database.js:81-110 | Replaying a batch holding one tombstone deletes nothing. Counting callbacks as written, the replay never answers; the corrected batch answers 1. |
| RowStore.BatchThrowsBeforeApplying | shared/database.js:70-112 | As written, `batchUpdate` throws before applying anything exactly when the delta has an entry, since `counterCallback` is undefined. Without entries it agrees with the corrected batch, which otherwise answers the entry count or an error. |
| RowStore.EntryEstablishes | shared/database.js:102-110 | An entry with a truthy id on a present table keeps the batch running, draws no guid, touches only its table, and leaves the entry applied: no row with a tombstone's id, or rows with the saved id that already hold the saved fields. |
| RowStore.EntryReplays | shared/database.js:102-110 | An applied entry applied again changes nothing: the tombstone's delete finds no row, and the save's update rewrites rows with what they hold. |
| RowStore.EntryPreserves | shared/database.js:102-110 | An applied entry stays applied when an entry for another table or another id is applied after it. |
| RowStore.RunShape | shared/database.js:99-111 | A run over entries with truthy ids draws no guid, keeps the set of tables, and stops exactly at the first entry naming a missing table, with its message. |
| RowStore.FirstRun | shared/database.js:99-111 | After one run over a replayable delta, every entry is applied, or an earlier entry named a missing table. |
| RowStore.Replay | shared/database.js:99-111 | A second run over a settled, replayable delta leaves the store and generator unchanged and stops where the first run stopped. |
| RowStore.BatchReplay | shared/database.js:70-112 | Applying a delta of entries with truthy, per-table distinct ids twice leaves the store, the generator and the answer exactly as applying it once, and draws no guid. |
| Sync.Synchronizer.constructor | shared/synchronizer.js:26-51 | Keeps the database, and the change log starts enabled. The back-reference `database.sync` is not modelled. |
| Sync.NewSynchronizer | shared/synchronizer.js:30-32 | Refused with "You must specify database reference as parameter." when no database is given. |
| Sync.Synchronizer.EnableChangeLog | shared/synchronizer.js:40-42 | Sets the change-log flag. |
| Sync.Synchronizer.GetLogForObject | shared/synchronizer.js:53-60 | Ignores the id and returns every change-log row. |
| Sync.TagWithLog | shared/synchronizer.js:75 | Tagging sets only `table` and leaves every other field as it was. |
| Sync.EntryOutput | shared/synchronizer.js:123-131 | A D entry yields the tombstone `{id: object_id}` tagged with its table, without reading the store. Any other entry reads the store: a missing table is that table's error, no row under the object id yields nothing, and more than one row is `findById`'s duplicate error. |
| Sync.EntryOutputFound | shared/synchronizer.js:123-131 | An insert or update entry whose object is stored under exactly one row yields that row, with its null fields stripped and tagged with the entry's table. |
| Sync.Synchronizer.ChangedRow | shared/synchronizer.js:123-131 | What one log entry contributes, per `EntryOutput`. |
| Sync.Synchronizer.GetChangedData | shared/synchronizer.js:62-133 | No start gives "Pass start date". No entry after the start gives `{error: null, tables: []}`. Otherwise the entries' rows and tombstones come in log order in this model, the first error ending the walk. |
| Sync.LogWindow | shared/synchronizer.js:103-107 | The entries walked are exactly the log rows stamped strictly after the start, each as often as stored, in ascending timestamp order. |
| Sync.DeletionsNeedNoStore | shared/synchronizer.js:126-127 | A log of deletions ships exactly its tombstones, in order, whatever the store holds. |
| Sync.ExtractAtMostOnePerEntry | shared/synchronizer.js:72-77 | No more rows are shipped than the log has entries, since missing rows are skipped. |
| Sync.ExtractStopsAtError | shared/synchronizer.js:88-95 | After a lookup error no later entry contributes. |
| Sync.ShippedTombstoneIsNotDeletedObject | shared/synchronizer.js:126-127 | A shipped tombstone has exactly the keys `id` and `table`, so `isDeletedObject` rejects it. |
| Sync.TagAll | shared/synchronizer.js:146-148 | Every row gets `table` set to its table, and nothing else changes. |
| Sync.Synchronizer.GetAllData | shared/synchronizer.js:135-187 | A schema error is reported. Otherwise the rows of every schema table not in `noLog` come back, tagged and in schema order, the first error ending the walk. This is the corrected countdown: see Findings. |
| Sync.CollectTagsTrackedTables | shared/synchronizer.js:178-190 | Every row shipped is tagged with a schema table that is not `ChangeLog`. |
| Sync.CollectStopsAtError | shared/synchronizer.js:164-171 | After a table's error no later table contributes. |
| Sync.AllDataWithoutChangeLogNeverAnswers | shared/synchronizer.js:178-184 | With the one-table schema `{Task}` lacking `ChangeLog`, the code as written never answers. The corrected version returns the table's rows. |
| Sync.CountdownFires | shared/synchronizer.js:141-184 | With every table present and tracked, the countdown as written answers once, when `count` tables have been read, with their rows; with a count outside 1 to the number of tables it never answers. |
| Sync.AllDataWithoutChangeLogAnswersEarly | shared/synchronizer.js:178-184 | With any schema of tracked tables lacking `ChangeLog`, the countdown starts one short: one table gives no answer, and more give an early answer holding every table's rows but the last's. The corrected version returns all of them. |
| Sync.AllDataOfNoTrackedTableNeverAnswers | shared/synchronizer.js:178-184 | With a schema holding only `ChangeLog`, the code as written never answers. The corrected version returns no rows. |
| SyncClient.Client.constructor | client/synchronizer.client.js:24-34 | Builds the synchronizer over the database and keeps the server URL. Keeps the client id only when it is truthy. |
| SyncClient.Client.ReadLogForObject | client/synchronizer.client.js:98-128 | Finds by `object_id` alone, whatever the table. More than one entry is "More than one log entry for single row". One entry gives `{operation, id, count}`, and none gives null. |
| SyncClient.ReadLogCases | client/synchronizer.client.js:110-127 | Against the store: null exactly when the object has no entry, the error exactly when it has more than one, and the entry's operation and id with count 1 when it has one. |
| SyncClient.Client.LogChange | client/synchronizer.client.js:58-96 | Equals `LogChangeSpec`: nothing for an untracked table or a disabled log; otherwise `readLogForObject`, then add, or remove, or save the coalesced entry. |
| SyncClient.LogChangeUntracked | client/synchronizer.client.js:68-70 | For a table in `noLog` or a disabled log, the store is untouched and the answer is null. |
| SyncClient.AddStep | client/synchronizer.client.js:78-80 | A new entry is appended under the next guid, or the store is left unchanged when that guid is taken. |
| SyncClient.AddEntry | client/synchronizer.client.js:61-80 | With no entry for the object, exactly one entry is appended, carrying the object, table, operation and timestamp under a fresh id. |
| SyncClient.FirstChange | client/synchronizer.client.js:61-80 | The first change of an object appends `{object_id, tablename, operation, timestamp}` under the next guid and answers that guid. |
| SyncClient.DropStep | client/synchronizer.client.js:88-89 | An insert entry followed by a delete removes that entry and answers 1. |
| SyncClient.RewriteStep | client/synchronizer.client.js:82-92 | Any other change rewrites the entry keyed by its own id and answers that id. |
| SyncClient.SaveRewrites | client/synchronizer.client.js:91 | `save` of an entry whose id the log holds once updates that entry. |
| SyncClient.DropCoalesces | client/synchronizer.client.js:88-89 | After an insert and then a delete, the log no longer mentions the object. |
| SyncClient.RewriteCoalesces | client/synchronizer.client.js:82-92 | The object's single entry keeps its id and takes the new table and timestamp. Its operation is I for an insert followed by an update, and the new operation otherwise. |
| SyncClient.LogChangeCoalesces | client/synchronizer.client.js:82-92 | The coalescing rules for an object that has an entry: drop on insert-then-delete, otherwise rewrite in place with the coalesced operation. |
| SyncClient.DropKeepsLog | client/synchronizer.client.js:88-89 | The drop keeps at most one entry per object and unique, truthy entry ids, and touches no other table. |
| SyncClient.RewriteKeepsLog | client/synchronizer.client.js:90-92 | The rewrite keeps the same invariant. |
| SyncClient.AddKeepsLog | client/synchronizer.client.js:78-80 | The append keeps the same invariant. |
| SyncClient.LogChangeKeepsLogWellFormed | client/synchronizer.client.js:78-92 | Every `logChange` keeps at most one entry per object, with unique and truthy entry ids, and changes no table but the change log. |
| SyncClient.AppendKeepsWellFormed | client/synchronizer.client.js:78-79 | Appending an entry with an unused id and object id keeps the invariant. |
| SyncClient.MergeKeepsWellFormed | client/synchronizer.client.js:90-91 | Rewriting an entry keyed by its id, without changing its id or object, keeps the invariant. |
| SyncClient.DropEntry | client/synchronizer.client.js:88-89 | Deleting the object's entry keeps the invariant and leaves no entry for the object. |
| SyncClient.DeleteAfterInsert | client/synchronizer.client.js:88-89 | A delete after the insert's entry was appended drops that entry, leaving the log as before the insert. |
| SyncClient.InsertThenDeleteLeavesNoTrace | client/synchronizer.client.js:58-96 | Insert then delete of a new object: the log ends exactly as it began, and the answers are the guid and 1. |
| SyncClient.InsertThenUpdateStaysInsert | client/synchronizer.client.js:84-86 | Insert then update of a new object leaves one entry with operation I, the insert's id, and the update's table and timestamp. |
| SyncClient.UpdateAfterInsert | client/synchronizer.client.js:84-91 | The update after an insert keeps the entry's id and its I operation. |
| SyncClient.Client.Init | client/synchronizer.client.js:36-56 | Adopts the `value` of the first `database_uid` Configuration row only when no truthy client id is set. Lookup errors are ignored, and the callback gets null. |
| SyncClient.InitKeepsPresetUid | client/synchronizer.client.js:47-49 | A client id given to the constructor is never replaced. |
| SyncClient.InitAdoptsStoredUid | client/synchronizer.client.js:44-49 | Without a preset id, the `value` of the first `database_uid` row is adopted, wherever that row sits and whatever rows follow it. |
| SyncClient.TagPayload | client/synchronizer.client.js:133-140 | The payload is the object given (empty for a function or a falsy argument) with `clientUID` and `database` set. An undefined value leaves its key out, and every other field is unchanged. |
| SyncClient.Client.ExchangeData | client/synchronizer.client.js:130-150 | Posts the tagged payload to `serverURL/sync`. |
| SyncClient.Client.RequestAllData | client/synchronizer.client.js:152-172 | Posts the tagged payload to `serverURL/data`. |
| Schema.FieldType | client/database.websqlite.js:98 | A field's declared type, or `string` when none is given. |
| Schema.KeyOf | client/database.websqlite.js:93 | The model's own primary key when given, and the store's key otherwise. |
| Schema.Nullability | client/database.websqlite.js:99-104 | `NOT NULL` exactly for required fields and the key column, and `NULL` exactly for the others. |
| WebSqlStore.GetSqlType | client/database.websqlite.js:123-132 | `string` maps to `text`, `date` to `integer`, and any other type is unchanged. |
| WebSqlStore.ClausesInOrder | client/database.websqlite.js:96-107 | One clause per field, in field order. |
| WebSqlStore.ColumnsShape | client/database.websqlite.js:96-111 | Each field's clause is `name type NOT NULL` for required fields and the key, and `name type NULL` otherwise. `PRIMARY KEY(pk)` is last. |
| WebSqlStore.WebSqliteDatabase.CreateTable | client/database.websqlite.js:89-121 | The loop builds exactly those clauses, and the statements issued are the DROP and then the CREATE. |
| WebSqlStore.WebSqliteDatabase.constructor | client/database.websqlite.js:24-35 | No handle and no transaction yet. |
| WebSqlStore.WebSqliteDatabase.Open | client/database.websqlite.js:37-40 | Keeps an existing handle, takes the new one otherwise, and always calls back. |
| WebSqlStore.WebSqliteDatabase.BatchUpdate | client/database.websqlite.js:134-183 | The shared batch semantics. `transaction` is set during the loop and is null after it whenever there are entries, and it is untouched otherwise. |
| WebSqlStore.Date | client/database.websqlite.js:188-193 | The given date's epoch milliseconds, or the current time's when none is given. |
| WebSqlStore.SqlErrorMessage | client/database.websqlite.js:204-208 | The message starts with the driver's message, followed by the SQL and its parameters. |
| WebSqlStore.OnSqlError | client/database.websqlite.js:195-208 | The statement's callback receives the composed error: the corrected handler, see Findings. |
| WebSqlStore.SqlErrorIsSwallowed | client/database.websqlite.js:195-208 | As written, a failed statement never reaches its caller. As corrected, it always does. |
| WebSqlite.GetSqlMapping | client/websqlite.js:103-116 | `string` maps to `text`, `date` to `integer`, `autoincrement` to `integer primary key autoincrement` and `now()` to `datetime('now')`. Any other type is unchanged. |
| WebSqlite.MappingExtendsSqlType | client/websqlite.js:103-116 | The mapping agrees with the earlier `getSQLType` except on the two types it adds. |
| WebSqlite.OnError | client/websqlite.js:85-92 | The callback receives the composed error before it is thrown, which is what `WebSqlStore.OnSqlError` intends. |
| WebSqlite.WebSqliteDatabase.constructor | client/websqlite.js:29-38 | No handle and no transaction yet. |
| WebSqlite.WebSqliteDatabase.Open | client/websqlite.js:40-45 | Keeps an existing handle, and calls back only when the callback is a function. |
| WebSqlite.WebSqliteDatabase.BatchUpdate | client/websqlite.js:118-131 | Sets `transaction`, delegates to the shared batch, and clears it when the batch answers, passing the answer on unchanged. The corrected batch always answers, so `transaction` is always cleared. |
| MysqlStore.GetSqlType | server/database.mysql.js:196-211 | `string` maps to `varchar(length)` for a non-zero length and to `varchar(40)` otherwise. `date` maps to `datetime`, and any other type is unchanged. |
| MysqlStore.ClausesInOrder | server/database.mysql.js:129-144 | One clause per field, in field order. |
| MysqlStore.ClauseText | server/database.mysql.js:130-143 | A clause is `name type NOT NULL` or `name type NULL`, with ` AUTO_INCREMENT` appended exactly when flagged. |
| MysqlStore.ColumnsShape | server/database.mysql.js:129-148 | One clause per field, in order, with `PRIMARY KEY(pk)` last. |
| MysqlStore.CreateTable | server/database.mysql.js:122-186 | The loop builds those clauses. The statements are DROP, CREATE, and then the INSERT, DELETE and UPDATE triggers, except for `ChangeLog`. |
| MysqlStore.TriggersForTrackedTables | server/database.mysql.js:150-177 | DROP and CREATE always come first. `ChangeLog` gets no trigger, and every other table gets exactly the INSERT, DELETE and UPDATE triggers. |
| MysqlStore.Operation | server/database.mysql.js:189 | The first character of the action. |
| MysqlStore.RowRef | server/database.mysql.js:190 | `OLD.id` exactly for a D action, and `NEW.id` otherwise. |
| MysqlStore.TriggerSql | server/database.mysql.js:188-194 | Begins with `CREATE TRIGGER <table>_AFTER_<action> AFTER <action> ON <table>`. |
| MysqlStore.FillZerosPads | server/database.mysql.js:243-245 | Every component from 0 to 99 becomes two digits, with a leading 0 below 10, and reads back as its value. |
| MysqlStore.DateRoundTrip | server/database.mysql.js:235-246 | The rendering is 19 characters `YYYY-MM-DD hh:mm:ss`, and parsing it back gives the date. |
| MysqlStore.OpenSpec | server/database.mysql.js:46-81 | The corrected `open` always answers. It succeeds exactly when the connection ends opened after a successful USE or a successful CREATE DATABASE. |
| MysqlStore.OpenNeverAnswersAfterCreate | server/database.mysql.js:60-70 | As written, `open` never answers exactly when it has just created the missing database, and it agrees with the corrected `open` everywhere else. |
| MysqlStore.Connection.Open | server/database.mysql.js:46-81 | Sets `opened` and answers as `OpenSpec`. The later variant in server/mysql.js (lines 46-81) is the same code. |
| MysqlStore.Connection.ExecuteSql | server/database.mysql.js:83-120 | "Database connection not opened" before `open`. A server error is passed on. Array data comes back as `rows` and anything else as `rowsAffected`, never both. The later variant in server/mysql.js (lines 83-120) is the same code. |
| MysqlStore.OpenedGuardsStatements | server/database.mysql.js:91-93 | A successful `open` leaves the connection opened. A USE error other than an unknown database leaves `opened` as it was. |
| Mysql.GetSqlMapping | server/mysql.js:122-139 | The MySQL mapping, plus `autoincrement` → `int PRIMARY KEY AUTO_INCREMENT`. |
| Mysql.MappingExtendsSqlType | server/mysql.js:122-139 | It agrees with the earlier `getSQLType` except on `autoincrement`. |

## Left out

- I/O is not modelled: the MySQL client library, `openDatabase` and WebSQL transactions, XHR, `fs.readFile` of the schema and the HTTP servers. Their replies are inputs: the `Read`/`Write` interpreter, the USE and CREATE DATABASE replies, `QueryData`, and the parsed body of an ajax reply.
- Asynchronous fan-out is processed sequentially, and interleavings are not modelled. This covers `step`, `async.forEach`/`series` and `fireEvent`'s iteration. `batchUpdate`, `getChangedData` and `getAllData` stop at the first error, where the callback-counting code would keep applying later entries and could call back more than once.
- RowStore.Database.BatchUpdate: `counterCallback` is not defined in `shared/utils.js`, so as written every batch with an entry throws (see Findings). The model assumes the counter the code evidently means: it answers once every entry has answered, with the first error or the entry count.
- Sync.Synchronizer.GetChangedData: ships rows in log order in this model. The source pushes a tombstone synchronously and a row only when `findById` answers, so with an asynchronous store the shipped order is tombstones first.
- SyncClient.TagPayload: returns a fresh value. The source sets `clientUID` and `database` on the caller's own object, and that aliasing is not modelled.
- Sync.NoLog: held at `["ChangeLog"]`. In the source `Synchronizer.noLog` is a public property that other code may reassign.
- RowStore.BatchReplay: stated for the key `id` and for entries with truthy, per-table distinct ids. An entry without an id is added again under a fresh guid on each replay, and two entries with one id in one table can overwrite each other.
- Utils.Extend: for a parent not built by `extend` (such as `Object`), `new Parent(__extending)` runs that constructor, whose side effects are not modelled; its prototype's members are the parent's members given as input.
- Sql.InsertRow: the uniqueness check is fixed to the column `id`. After `setPrimaryKey` names another key, a real table (whose CREATE TABLE declares that key as PRIMARY KEY) would refuse a second row with the same key value, and the model accepts it.
- Sync.Synchronizer.constructor: the back-reference `database.sync = this` is not modelled, because no modelled operation reads it.
- The `afterAdd`, `afterUpdate` and `afterRemove` events that `add`, `update` and `remove` fire before answering are not modelled; they are treated as having no listeners.
- `JSON.parse`/`JSON.stringify` and the `dateformat` library are not modelled. Timestamps are integers, and the MySQL `date` method (`dateFormat(date, ...)`) is not modelled; `dateToMysql` is.
- The following are not modelled: `createTables`, `clearTable`, `getTableSize`, `getSchemaDefinition`, `close`, the WebSQL `executeSQL` (its row copying is the identity on the modelled rows) and the SQL text of `query`'s `find(table, where, ...)`, which is modelled as the equality it is used for.
- The result of executing the DDL statements that `createTable` issues, and the `async.series`/`step` error handling around them, are not modelled; the statements are modelled in order.
- `server/handlers.js`, `client/remote.js`, `server/server.js`, `app.js` and the test files are not part of this model.
- The MySQL `open` and `executeSQL` of `server/mysql.js` are the same code as those of `server/database.mysql.js`, and are modelled once in `MysqlStore.Connection`. `ErrorBadDb` is 1049, the MySQL server's code for an unknown database (`ER_BAD_DB_ERROR`).
- Randomness: `Math.random` is the parameter `rng`, one draw per call. Only the layout of a guid is proved, not its uniqueness; lemmas that need a fresh guid require it.
- SyncClient.FirstChange: requires `id != Null` and that the next guid is unused, because SQL `object_id = NULL` never matches; the lemma says nothing about a null object id.
- SyncClient.InsertThenDeleteLeavesNoTrace: requires `id != Null`, for the same reason.
- SyncClient.InsertThenUpdateStaysInsert: requires `id != Null`, for the same reason.
- SyncClient.UpdateAfterInsert: requires `id != Null`, for the same reason.
- MysqlStore.DateRoundTrip: only for years 1000-9999 and in-range components, where `getUTCFullYear` prints four digits; the source handles other years but their rendering is not fixed-width.
- RowStore.CrudRoundTrip: stated for the default key `id`, as the source's CRUD test uses it.
- RowStore.AddThenFind: stated for the default key `id`; with another key, `findById` still looks up `id`, which the store may not have set.
- RowStore.ReplaySave: stated for the default key `id`, for the same reason.
- RowStore.SaveKeepsIdUnique: stated for the default key `id`, for the same reason.

## Findings

| source | as written | input that shows it | evidently intended | confidence | as-written member | corrected member |
|---|---|---|---|---|---|---|
| shared/database.js:190-193 | With more than one row, `findById` reports the error but has no `return`, so it also calls back with `result[0]` | two rows with the same id | report the error only | not executed | RowStore.FindByIdCallsAsWritten | RowStore.FindByIdReply |
| shared/synchronizer.js:178-184 | The countdown starts at `keys(schema).length - noLog.length` and answers only when it reaches 0 | a schema `{Task}` without `ChangeLog` (no answer), `{A, B}` without `ChangeLog` (an early answer holding A's rows only), or `{ChangeLog}` alone (no answer) | answer once every tracked table has been read | not executed | Sync.AllDataCallsAsWritten | Sync.AllDataSpec |
| shared/database.js:155-170 | `query`'s callback reads `result.rows` before it checks `error` | a statement on a missing table (the result is null) | report the error | not executed | RowStore.QueryAsWritten | RowStore.QuerySpec |
| client/database.websqlite.js:195-208 | `onSQLError` calls `throwSQLError`, which throws, before the callback | any failing statement | call back with the error, as client/websqlite.js:85-91 does | not executed | WebSqlStore.OnSqlErrorAsWritten | WebSqlStore.OnSqlError |
| server/database.mysql.js:60-70 | After creating the missing database, `open` marks the connection opened but never calls back | USE failing with an unknown-database error, then CREATE DATABASE succeeding | answer success once the database exists | not executed | MysqlStore.OpenAsWritten | MysqlStore.OpenSpec |
| shared/database.js:97 | `batchUpdate` calls `counterCallback`, which `shared/utils.js` does not define, so it throws a TypeError before applying any entry | a delta with one entry | count the entries' answers and answer once all have | not executed | RowStore.BatchAsWritten | RowStore.BatchSpec |
| shared/database.js:258-260 | With a callback counter, `remove`'s zero-row path only logs a warning, so a tombstone already applied never answers and the batch waits forever | the same tombstone batch applied twice | a re-delete is a no-op and the batch answers | not executed | RowStore.BatchCountingCallbacks | RowStore.BatchSpec |
