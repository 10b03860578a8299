/**
 * The client synchronizer of client/synchronizer.client.js: change capture
 * with coalescing (logChange over readLogForObject), the adoption of the
 * client's unique id from the Configuration table (init), and the tagging
 * of the payload that exchangeData and requestAllData send.
 *
 * The change log is the ChangeLog table of the row store; each of its rows
 * is `{id, object_id, tablename, operation, timestamp}`. LogChangeSpec
 * states what one call does to the store; the lemmas below it prove the
 * coalescing rules and that the log keeps at most one entry per object.
 */
module SyncClient {
  import opened Values
  import opened Sql
  import opened RowStore
  import Sync
  import Utils

  const ObjectIdColumn := "object_id"
  const ConfigurationTable := "Configuration"
  const MoreThanOneEntry := "More than one log entry for single row"

  // ------------------------------------------------------- readLogForObject

  /** What readLogForObject passes on for the single entry it found: `{operation, id, count}`. */
  datatype LogEntry = LogEntry(operation: Option<Value>, id: Option<Value>, count: nat)

  /** The query of readLogForObject: the log rows of that object id, whatever their table. */
  function EntriesOf(id: Value): Query {
    Select(Sync.ChangeLogTable, ColumnIs(ObjectIdColumn, id))
  }

  /** readLogForObject's answer to the rows its query returned. */
  function ReadLogReply(q: Outcome<seq<Row>>): Outcome<Option<LogEntry>> {
    match q
    case Failure(m) => Failure(m)
    case NoCallback => NoCallback
    case Success(rows) =>
      if |rows| > 1 then Failure(MoreThanOneEntry)
      else if |rows| > 0 then Success(Some(LogEntry(Field(rows[0], "operation"), Field(rows[0], IdColumn), |rows|)))
      else Success(None)
  }

  function ReadLogSpec(t: Tables, id: Value): Outcome<Option<LogEntry>> {
    ReadLogReply(QuerySpec(t, EntriesOf(id)))
  }

  /**
   * Against the store: no entry for the object gives null, one gives its
   * operation and id with count 1, and more than one is an error.
   */
  lemma ReadLogCases(t: Tables, id: Value)
    requires Sync.ChangeLogTable in t
    ensures var n := CountWhere(t[Sync.ChangeLogTable], ObjectIdColumn, id);
            && (n == 0 <==> ReadLogSpec(t, id) == Success(None))
            && (n > 1 <==> ReadLogSpec(t, id) == Failure(MoreThanOneEntry))
            && (n == 1 ==> exists r :: r in t[Sync.ChangeLogTable] && Matches(r, ColumnIs(ObjectIdColumn, id)) &&
                             ReadLogSpec(t, id) == Success(Some(LogEntry(Field(WithoutNulls(r), "operation"),
                                                                         Field(WithoutNulls(r), IdColumn), 1))))
  {
    var rows := t[Sync.ChangeLogTable];
    var found := Filter(rows, ColumnIs(ObjectIdColumn, id));
    assert QuerySpec(t, EntriesOf(id)) == Success(NullsStripped(found));
    if |found| == 1 {
      FilterMembers(rows, ColumnIs(ObjectIdColumn, id));
      assert found[0] in found;
      assert NullsStripped(found)[0] == WithoutNulls(found[0]);
    }
  }

  // -------------------------------------------------------------- logChange

  /** The entry logChange starts from: `{object_id, tablename, operation, timestamp}`. */
  function NewLog(table: string, id: Value, operation: string, now: int): Row {
    map[ObjectIdColumn := id, "tablename" := Str(table), "operation" := Str(operation), TimestampColumn := Int(now)]
  }

  /** The rows affected that remove reports, as the value the callback receives. */
  function AsValue(o: Outcome<nat>): Outcome<Value> {
    match o
    case Success(n) => Success(Int(n))
    case Failure(m) => Failure(m)
    case NoCallback => NoCallback
  }

  predicate IsInsert(e: LogEntry) {
    e.operation == Some(Str("I"))
  }

  /**
   * `logChange(table, id, operation)` at time `now` on a store whose key is
   * `pk`: nothing for an untracked table or a disabled log; otherwise a new
   * entry, or the existing entry of the object rewritten (an insert stays an
   * insert when updated) or, for an insert followed by a delete, removed.
   */
  function LogChangeSpec(t: Tables, draws: nat, rng: nat -> Utils.Draw, pk: string, enabled: bool,
                         table: string, id: Value, operation: string, now: int): Step<Value>
  {
    if table in Sync.NoLog || !enabled then Step(t, draws, Success(Null))
    else
      var log := NewLog(table, id, operation, now);
      match ReadLogSpec(t, id)
      case Failure(m) => Step(t, draws, Failure(m))
      case NoCallback => Step(t, draws, NoCallback)
      case Success(entry) =>
        if entry.None? then AddSpec(t, draws, rng, pk, log, Sync.ChangeLogTable)
        else
          var e := entry.value;
          var withId := WithField(log, IdColumn, e.id);
          var coalesced := if IsInsert(e) && operation == "U" then withId["operation" := Str("I")] else withId;
          if IsInsert(e) && operation == "D" then
            var s := RemoveSpec(t, draws, pk, coalesced, Sync.ChangeLogTable);
            Step(s.tables, s.draws, AsValue(s.outcome))
          else SaveSpec(t, draws, rng, pk, coalesced, Sync.ChangeLogTable)
  }

  // ------------------------------------------------------------------ class

  /** A SynchronizerClient: the synchronizer it extends, the server's URL and the client's unique id. */
  class Client {
    const base: Sync.Synchronizer
    const serverURL: string
    var clientUID: Option<Value>

    /** `initialize(database, serverURL, clientUID)`: a falsy clientUID is not kept. */
    constructor (database: Database, serverURL: string, clientUID: Option<Value>)
      ensures fresh(base) && base.db == database && base.changeLog
      ensures this.serverURL == serverURL
      ensures this.clientUID == if clientUID.Some? && Truthy(clientUID.value) then clientUID else None
    {
      base := new Sync.Synchronizer(database);
      this.serverURL := serverURL;
      this.clientUID := if clientUID.Some? && Truthy(clientUID.value) then clientUID else None;
    }

    method ReadLogForObject(id: Value) returns (r: Outcome<Option<LogEntry>>)
      ensures r == ReadLogSpec(base.db.tables, id)
    {
      var rows := base.db.Find(Sync.ChangeLogTable, ObjectIdColumn, id);
      if rows.Failure? {
        return Failure(rows.message);
      }
      if rows.NoCallback? {
        return NoCallback;
      }
      var found := rows.value;
      if |found| > 1 {
        return Failure(MoreThanOneEntry);
      }
      if |found| > 0 {
        r := Success(Some(LogEntry(Field(found[0], "operation"), Field(found[0], IdColumn), |found|)));
      } else {
        r := Success(None);
      }
    }

    /** `logChange(table, id, operation)`; `now` is `db.date(new Date())`. */
    method LogChange(table: string, id: Value, operation: string, now: int) returns (r: Outcome<Value>)
      modifies base.db`tables, base.db`draws
      ensures Step(base.db.tables, base.db.draws, r) ==
              LogChangeSpec(old(base.db.tables), old(base.db.draws), base.db.rng, base.db.primaryKey,
                            base.changeLog, table, id, operation, now)
    {
      var db := base.db;
      var log := NewLog(table, id, operation, now);
      if table in Sync.NoLog || !base.changeLog {
        return Success(Null);
      }
      var entry := ReadLogForObject(id);
      match entry
      case Failure(m) =>
        r := Failure(m);
      case NoCallback =>
        r := NoCallback;
      case Success(found) =>
        if found.None? {
          r := db.Add(log, Sync.ChangeLogTable);
          return;
        }
        var e := found.value;
        log := WithField(log, IdColumn, e.id);
        if IsInsert(e) && operation == "U" {
          log := log["operation" := Str("I")];
        }
        if IsInsert(e) && operation == "D" {
          var removed := db.Remove(log, Sync.ChangeLogTable);
          r := AsValue(removed);
        } else {
          r := db.Save(log, Sync.ChangeLogTable);
        }
    }

    /**
     * `init`: after opening the store, the clientUID becomes the `value` of
     * the first Configuration row whose parameter is `database_uid`, unless
     * one was given; errors of the lookup are ignored and the callback gets
     * no result.
     */
    method Init() returns (r: Outcome<Value>)
      modifies this`clientUID
      ensures clientUID == AdoptedUid(old(clientUID), QuerySpec(base.db.tables, UidQuery()))
      ensures r == Success(Null)
    {
      var config := base.db.Find(ConfigurationTable, "parameter", Str("database_uid"));
      clientUID := AdoptedUid(clientUID, config);
      r := Success(Null);
    }

    /** `exchangeData(data, callback)`: the request posted to `serverURL + "/sync"`. */
    method ExchangeData(data: DataArg, database: Option<Value>) returns (request: Request)
      ensures request == Request(serverURL + "/sync", TagPayload(data, clientUID, database))
    {
      request := Request(serverURL + "/sync", TagPayload(data, clientUID, database));
    }

    /** `requestAllData(data, callback)`: the same payload, posted to `serverURL + "/data"`. */
    method RequestAllData(data: DataArg, database: Option<Value>) returns (request: Request)
      ensures request == Request(serverURL + "/data", TagPayload(data, clientUID, database))
    {
      request := Request(serverURL + "/data", TagPayload(data, clientUID, database));
    }
  }

  // ------------------------------------------------------------------- init

  function UidQuery(): Query {
    Select(ConfigurationTable, ColumnIs("parameter", Str("database_uid")))
  }

  /** The clientUID after `init`: kept when truthy, else taken from the first configuration row found. */
  function AdoptedUid(current: Option<Value>, config: Outcome<seq<Row>>): Option<Value> {
    if !(current.Some? && Truthy(current.value)) && config.Success? && |config.value| > 0 then
      Field(config.value[0], "value")
    else current
  }

  /** A clientUID given to the constructor is never replaced by `init`. */
  lemma InitKeepsPresetUid(t: Tables, uid: Value)
    requires Truthy(uid)
    ensures AdoptedUid(Some(uid), QuerySpec(t, UidQuery())) == Some(uid)
  {
  }

  /**
   * Without a preset clientUID, `init` adopts the `value` of the first
   * `database_uid` row of the Configuration table, whatever rows follow it.
   */
  lemma InitAdoptsStoredUid(t: Tables, rows: seq<Row>, row: Row, rest: seq<Row>, uid: Value)
    requires ConfigurationTable in t && t[ConfigurationTable] == rows + [row] + rest
    requires CountWhere(rows, "parameter", Str("database_uid")) == 0
    requires "parameter" in row && row["parameter"] == Str("database_uid")
    requires "value" in row && row["value"] == uid && uid != Null
    ensures AdoptedUid(None, QuerySpec(t, UidQuery())) == Some(uid)
  {
    var w := ColumnIs("parameter", Str("database_uid"));
    assert rows + [row] + rest == rows + ([row] + rest);
    FilterAppend(rows, [row] + rest, w);
    assert ([row] + rest)[0] == row && ([row] + rest)[1..] == rest;
    assert Filter(rows, w) == [];
    assert Filter(t[ConfigurationTable], w)[0] == row;
  }

  // ---------------------------------------------------------- exchangeData

  /** The `data` argument: a function (then it was the callback), a falsy value, or an object. */
  datatype DataArg = FunctionArg | Falsy | Payload(fields: Row)

  /** An ajax POST: the URL and the body before it is serialized. */
  datatype Request = Request(url: string, body: Row)

  /**
   * The payload: the object given (an empty one for a function or a falsy
   * value), with `clientUID` and `database` set, `undefined` leaving them out.
   */
  function TagPayload(data: DataArg, clientUID: Option<Value>, database: Option<Value>): (r: Row)
    ensures ("clientUID" in r <==> clientUID.Some?) && (clientUID.Some? ==> r["clientUID"] == clientUID.value)
    ensures ("database" in r <==> database.Some?) && (database.Some? ==> r["database"] == database.value)
    ensures forall k :: k != "clientUID" && k != "database" ==>
              (k in r <==> data.Payload? && k in data.fields) &&
              (k in r ==> r[k] == data.fields[k])
  {
    var start := if data.Payload? then data.fields else map[];
    WithField(WithField(start, "clientUID", clientUID), "database", database)
  }

  // -------------------------------------------------- the change log's shape

  /**
   * The shape logChange keeps the change log in: every entry has a truthy
   * id, no two entries share an id, and no two entries share an object id.
   */
  ghost predicate WellFormedLog(rows: seq<Row>) {
    && (forall r :: r in rows ==> TruthyField(r, IdColumn))
    && (forall v :: CountWhere(rows, IdColumn, v) <= 1)
    && (forall v :: CountWhere(rows, ObjectIdColumn, v) <= 1)
  }

  /** A guid is a non-empty string, so a truthy key. */
  lemma GuidTruthy(rng: nat -> Utils.Draw, draws: nat)
    ensures Truthy(Str(Utils.Guid(rng, draws)))
  {
    Utils.GuidHasFormat(rng, draws);
  }

  /** Appending an entry whose id and object id no entry has keeps the log well formed. */
  lemma AppendKeepsWellFormed(rows: seq<Row>, row: Row)
    requires WellFormedLog(rows) && TruthyField(row, IdColumn)
    requires CountWhere(rows, IdColumn, row[IdColumn]) == 0
    requires ObjectIdColumn in row && CountWhere(rows, ObjectIdColumn, row[ObjectIdColumn]) == 0
    ensures WellFormedLog(rows + [row])
  {
    forall r | r in rows + [row] ensures TruthyField(r, IdColumn) {
      if r != row { assert r in rows; }
    }
    forall v ensures CountWhere(rows + [row], IdColumn, v) <= 1 {
      CountAppendOne(rows, row, IdColumn, v);
    }
    forall v ensures CountWhere(rows + [row], ObjectIdColumn, v) <= 1 {
      CountAppendOne(rows, row, ObjectIdColumn, v);
    }
  }

  /** The INSERT of a new entry under the next guid, which the table's primary key refuses when the guid is taken. */
  lemma AddStep(t: Tables, draws: nat, rng: nat -> Utils.Draw, table: string, id: Value, operation: string, now: int)
    requires Sync.ChangeLogTable in t
    ensures var rows := t[Sync.ChangeLogTable];
            var g := Str(Utils.Guid(rng, draws));
            var s := AddSpec(t, draws, rng, IdColumn, NewLog(table, id, operation, now), Sync.ChangeLogTable);
            && (CountWhere(rows, IdColumn, g) == 0 ==>
                  s == Step(t[Sync.ChangeLogTable := rows + [NewLog(table, id, operation, now)[IdColumn := g]]], draws + 8, Success(g)))
            && (CountWhere(rows, IdColumn, g) > 0 ==> s.tables == t && s.outcome.Failure?)
  {
    var g := Str(Utils.Guid(rng, draws));
    var log := NewLog(table, id, operation, now);
    var row := log[IdColumn := g];
    assert IdColumn !in log;
    assert AddSpec(t, draws, rng, IdColumn, log, Sync.ChangeLogTable) ==
           Step(InsertRow(t, Sync.ChangeLogTable, row).tables, draws + 8, Reported(InsertRow(t, Sync.ChangeLogTable, row).result, g));
  }

  /** No entry for the object: the new entry is appended under a fresh guid, unless that guid is taken. */
  lemma AddEntry(t: Tables, draws: nat, rng: nat -> Utils.Draw, table: string, id: Value, operation: string, now: int)
    requires Sync.ChangeLogTable in t && WellFormedLog(t[Sync.ChangeLogTable])
    requires CountWhere(t[Sync.ChangeLogTable], ObjectIdColumn, id) == 0
    ensures var rows := t[Sync.ChangeLogTable];
            var g := Str(Utils.Guid(rng, draws));
            var s := AddSpec(t, draws, rng, IdColumn, NewLog(table, id, operation, now), Sync.ChangeLogTable);
            && (CountWhere(rows, IdColumn, g) == 0 ==>
                  s == Step(t[Sync.ChangeLogTable := rows + [NewLog(table, id, operation, now)[IdColumn := g]]], draws + 8, Success(g)))
            && (CountWhere(rows, IdColumn, g) > 0 ==> s.tables == t && s.outcome.Failure?)
            && Sync.ChangeLogTable in s.tables && WellFormedLog(s.tables[Sync.ChangeLogTable])
            && s.tables == t[Sync.ChangeLogTable := s.tables[Sync.ChangeLogTable]]
  {
    var rows := t[Sync.ChangeLogTable];
    var g := Str(Utils.Guid(rng, draws));
    var row := NewLog(table, id, operation, now)[IdColumn := g];
    AddStep(t, draws, rng, table, id, operation, now);
    if CountWhere(rows, IdColumn, g) == 0 {
      GuidTruthy(rng, draws);
      assert row[ObjectIdColumn] == id && row[IdColumn] == g;
      AppendKeepsWellFormed(rows, row);
    }
  }

  /** In a well-formed log, the rows carrying the id of an entry are that entry. */
  lemma OnlyEntryWithId(rows: seq<Row>, r0: Row)
    requires WellFormedLog(rows) && r0 in rows
    ensures IdColumn in r0 && CountWhere(rows, IdColumn, r0[IdColumn]) == 1
    ensures forall j :: 0 <= j < |rows| && HasId(rows[j], r0[IdColumn]) ==> rows[j] == r0
  {
    var byId := ColumnIs(IdColumn, r0[IdColumn]);
    assert HasId(r0, r0[IdColumn]);
    assert CountWhere(rows, IdColumn, r0[IdColumn]) <= 1;
    FilterMembers(rows, byId);
    assert r0 in Filter(rows, byId);
    forall j | 0 <= j < |rows| && HasId(rows[j], r0[IdColumn]) ensures rows[j] == r0 {
      OnlyMatch(rows, byId, rows[j], r0);
    }
  }

  /** An UPDATE keyed by an entry's id that rewrites neither id nor object id keeps the log well formed. */
  lemma MergeKeepsWellFormed(rows: seq<Row>, r0: Row, assigns: Row)
    requires WellFormedLog(rows) && r0 in rows
    requires IdColumn !in assigns && ObjectIdColumn in r0 && ObjectIdColumn in assigns
    requires assigns[ObjectIdColumn] == r0[ObjectIdColumn]
    ensures IdColumn in r0 && CountWhere(rows, IdColumn, r0[IdColumn]) == 1
    ensures WellFormedLog(MergeWhere(rows, r0[IdColumn], assigns))
    ensures r0 + assigns in MergeWhere(rows, r0[IdColumn], assigns)
  {
    OnlyEntryWithId(rows, r0);
    var rid := r0[IdColumn];
    var after := MergeWhere(rows, rid, assigns);
    forall r | r in after ensures TruthyField(r, IdColumn) {
      var j :| 0 <= j < |after| && after[j] == r;
      assert rows[j] in rows;
    }
    forall v ensures CountWhere(after, IdColumn, v) <= 1 {
      MergeKeepsIds(rows, rid, assigns, v);
    }
    forall v ensures CountWhere(after, ObjectIdColumn, v) <= 1 {
      assert CountWhere(rows, ObjectIdColumn, v) <= 1;
      CountSame(after, rows, ColumnIs(ObjectIdColumn, v));
    }
    var i :| 0 <= i < |rows| && rows[i] == r0;
    assert HasId(r0, rid);
    assert after[i] == r0 + assigns;
  }

  /** The entry of the object, whose id is `rid`, is the only row that an UPDATE keyed by `rid` touches. */
  lemma RewriteEntry(rows: seq<Row>, r0: Row, id: Value, assigns: Row)
    requires WellFormedLog(rows) && r0 in rows && Matches(r0, ColumnIs(ObjectIdColumn, id))
    requires IdColumn !in assigns && ObjectIdColumn in assigns && assigns[ObjectIdColumn] == id
    ensures var after := MergeWhere(rows, r0[IdColumn], assigns);
            && WellFormedLog(after)
            && CountWhere(rows, IdColumn, r0[IdColumn]) == 1
            && Filter(after, ColumnIs(ObjectIdColumn, id)) == [r0 + assigns]
  {
    MergeKeepsWellFormed(rows, r0, assigns);
    var after := MergeWhere(rows, r0[IdColumn], assigns);
    assert CountWhere(after, ObjectIdColumn, id) <= 1;
    SingleMatch(after, ColumnIs(ObjectIdColumn, id), r0 + assigns);
  }

  /** A DELETE keyed by the id of the object's entry leaves the log well formed and without that object. */
  lemma DropEntry(rows: seq<Row>, r0: Row, id: Value)
    requires WellFormedLog(rows) && r0 in rows && Matches(r0, ColumnIs(ObjectIdColumn, id))
    ensures var after := Without(rows, r0[IdColumn]);
            && WellFormedLog(after)
            && CountWhere(rows, IdColumn, r0[IdColumn]) == 1
            && CountWhere(after, ObjectIdColumn, id) == 0
  {
    OnlyEntryWithId(rows, r0);
    var rid := r0[IdColumn];
    var after := Without(rows, rid);
    var byObject := ColumnIs(ObjectIdColumn, id);
    forall v ensures CountWhere(after, IdColumn, v) <= 1 {
      CountWithout(rows, rid, IdColumn, v);
    }
    forall v ensures CountWhere(after, ObjectIdColumn, v) <= 1 {
      CountWithout(rows, rid, ObjectIdColumn, v);
    }
    assert CountWhere(rows, ObjectIdColumn, id) <= 1;
    forall i | 0 <= i < |after| ensures !Matches(after[i], byObject) {
      if Matches(after[i], byObject) {
        assert after[i] in rows;
        OnlyMatch(rows, byObject, after[i], r0);
      }
    }
    FilterEmpty(after, byObject);
  }

  /** The log entry readLogForObject finds for an object that has one. */
  lemma FoundEntry(t: Tables, id: Value) returns (r0: Row)
    requires Sync.ChangeLogTable in t && WellFormedLog(t[Sync.ChangeLogTable])
    requires CountWhere(t[Sync.ChangeLogTable], ObjectIdColumn, id) > 0
    ensures r0 in t[Sync.ChangeLogTable] && Matches(r0, ColumnIs(ObjectIdColumn, id))
    ensures ReadLogSpec(t, id) ==
            Success(Some(LogEntry(Field(WithoutNulls(r0), "operation"), Some(r0[IdColumn]), 1)))
    ensures IdColumn in r0 && Truthy(r0[IdColumn])
  {
    var rows := t[Sync.ChangeLogTable];
    var found := Filter(rows, ColumnIs(ObjectIdColumn, id));
    assert QuerySpec(t, EntriesOf(id)) == Success(NullsStripped(found));
    FilterMembers(rows, ColumnIs(ObjectIdColumn, id));
    r0 := found[0];
    assert r0 in found;
    assert NullsStripped(found)[0] == WithoutNulls(r0);
  }

  /** The entry logChange finds for an object that has the entry `r0` in a well-formed log. */
  lemma EntryOf(t: Tables, id: Value, r0: Row)
    requires Sync.ChangeLogTable in t && WellFormedLog(t[Sync.ChangeLogTable])
    requires r0 in t[Sync.ChangeLogTable] && Matches(r0, ColumnIs(ObjectIdColumn, id))
    ensures IdColumn in r0 && Truthy(r0[IdColumn]) && CountWhere(t[Sync.ChangeLogTable], IdColumn, r0[IdColumn]) == 1
    ensures ReadLogSpec(t, id) ==
            Success(Some(LogEntry(Field(WithoutNulls(r0), "operation"), Some(r0[IdColumn]), 1)))
  {
    var rows := t[Sync.ChangeLogTable];
    FilterMembers(rows, ColumnIs(ObjectIdColumn, id));
    assert r0 in Filter(rows, ColumnIs(ObjectIdColumn, id));
    var r1 := FoundEntry(t, id);
    OnlyMatch(rows, ColumnIs(ObjectIdColumn, id), r0, r1);
    OnlyEntryWithId(rows, r0);
  }

  /** The operation an entry that was `r0` carries after `operation`: an insert that is updated stays an insert. */
  function CoalescedOperation(r0: Row, operation: string): string {
    if "operation" in r0 && r0["operation"] == Str("I") && operation == "U" then "I" else operation
  }

  /** A delete of an object whose entry records its insert: the entry is dropped and the callback gets 1. */
  lemma DropStep(t: Tables, draws: nat, rng: nat -> Utils.Draw, table: string, id: Value, now: int, r0: Row)
    requires Sync.ChangeLogTable in t && WellFormedLog(t[Sync.ChangeLogTable]) && table !in Sync.NoLog
    requires r0 in t[Sync.ChangeLogTable] && Matches(r0, ColumnIs(ObjectIdColumn, id))
    requires "operation" in r0 && r0["operation"] == Str("I")
    ensures IdColumn in r0
    ensures LogChangeSpec(t, draws, rng, IdColumn, true, table, id, "D", now) ==
            Step(t[Sync.ChangeLogTable := Without(t[Sync.ChangeLogTable], r0[IdColumn])], draws, Success(Int(1)))
  {
    EntryOf(t, id, r0);
    assert Field(WithoutNulls(r0), "operation") == Some(Str("I"));
    assert Bind(Field(NewLog(table, id, "D", now)[IdColumn := r0[IdColumn]], IdColumn)) == r0[IdColumn];
  }

  /** Any other change of an object that has an entry: the entry keeps its id and is rewritten in place. */
  lemma RewriteStep(t: Tables, draws: nat, rng: nat -> Utils.Draw, table: string, id: Value, operation: string,
                    now: int, r0: Row)
    requires Sync.ChangeLogTable in t && WellFormedLog(t[Sync.ChangeLogTable]) && table !in Sync.NoLog
    requires r0 in t[Sync.ChangeLogTable] && Matches(r0, ColumnIs(ObjectIdColumn, id))
    requires !("operation" in r0 && r0["operation"] == Str("I") && operation == "D")
    ensures IdColumn in r0
    ensures LogChangeSpec(t, draws, rng, IdColumn, true, table, id, operation, now) ==
            Step(t[Sync.ChangeLogTable := MergeWhere(t[Sync.ChangeLogTable], r0[IdColumn],
                                                     NewLog(table, id, CoalescedOperation(r0, operation), now))],
                 draws, Success(r0[IdColumn]))
  {
    EntryOf(t, id, r0);
    var rid := r0[IdColumn];
    var wasInsert := "operation" in r0 && r0["operation"] == Str("I");
    assert Field(WithoutNulls(r0), "operation") == Some(Str("I")) <==> wasInsert;
    var withId := NewLog(table, id, operation, now)[IdColumn := rid];
    var coalesced := if wasInsert && operation == "U" then withId["operation" := Str("I")] else withId;
    assert coalesced - {IdColumn} == NewLog(table, id, CoalescedOperation(r0, operation), now);
    SaveRewrites(t, draws, rng, rid, coalesced);
  }

  /** `save` of an entry whose id the log already holds once: an UPDATE of that entry, answered with the id. */
  lemma SaveRewrites(t: Tables, draws: nat, rng: nat -> Utils.Draw, rid: Value, entry: Row)
    requires Sync.ChangeLogTable in t && CountWhere(t[Sync.ChangeLogTable], IdColumn, rid) == 1
    requires TruthyField(entry, IdColumn) && entry[IdColumn] == rid && ObjectIdColumn in entry
    ensures SaveSpec(t, draws, rng, IdColumn, entry, Sync.ChangeLogTable) ==
            Step(t[Sync.ChangeLogTable := MergeWhere(t[Sync.ChangeLogTable], rid, entry - {IdColumn})], draws, Success(rid))
  {
    FilterMembers(t[Sync.ChangeLogTable], ColumnIs(IdColumn, rid));
    assert ExistSpec(t, rid, Sync.ChangeLogTable) == Ok(true);
    assert ObjectIdColumn in entry - {IdColumn};
  }

  /** What the invariant asks of one logChange step from `t`. */
  ghost predicate KeepsLog(t: Tables, s: Step<Value>) {
    Sync.ChangeLogTable in s.tables && WellFormedLog(s.tables[Sync.ChangeLogTable])
    && s.tables == t[Sync.ChangeLogTable := s.tables[Sync.ChangeLogTable]]
  }

  lemma DropKeepsLog(t: Tables, draws: nat, rng: nat -> Utils.Draw, table: string, id: Value, now: int, r0: Row)
    requires Sync.ChangeLogTable in t && WellFormedLog(t[Sync.ChangeLogTable]) && table !in Sync.NoLog
    requires r0 in t[Sync.ChangeLogTable] && Matches(r0, ColumnIs(ObjectIdColumn, id))
    requires "operation" in r0 && r0["operation"] == Str("I")
    ensures KeepsLog(t, LogChangeSpec(t, draws, rng, IdColumn, true, table, id, "D", now))
  {
    DropStep(t, draws, rng, table, id, now, r0);
    DropEntry(t[Sync.ChangeLogTable], r0, id);
  }

  lemma RewriteKeepsLog(t: Tables, draws: nat, rng: nat -> Utils.Draw, table: string, id: Value, operation: string,
                        now: int, r0: Row)
    requires Sync.ChangeLogTable in t && WellFormedLog(t[Sync.ChangeLogTable]) && table !in Sync.NoLog
    requires r0 in t[Sync.ChangeLogTable] && Matches(r0, ColumnIs(ObjectIdColumn, id))
    requires !("operation" in r0 && r0["operation"] == Str("I") && operation == "D")
    ensures KeepsLog(t, LogChangeSpec(t, draws, rng, IdColumn, true, table, id, operation, now))
  {
    RewriteStep(t, draws, rng, table, id, operation, now, r0);
    RewriteEntry(t[Sync.ChangeLogTable], r0, id, NewLog(table, id, CoalescedOperation(r0, operation), now));
  }

  lemma AddKeepsLog(t: Tables, draws: nat, rng: nat -> Utils.Draw, table: string, id: Value, operation: string, now: int)
    requires Sync.ChangeLogTable in t && WellFormedLog(t[Sync.ChangeLogTable]) && table !in Sync.NoLog
    requires CountWhere(t[Sync.ChangeLogTable], ObjectIdColumn, id) == 0
    ensures KeepsLog(t, LogChangeSpec(t, draws, rng, IdColumn, true, table, id, operation, now))
  {
    ReadLogCases(t, id);
    AddEntry(t, draws, rng, table, id, operation, now);
  }

  /**
   * The central invariant of change capture: logChange keeps at most one
   * entry per object (and unique, truthy entry ids) in the change log, and
   * touches no other table.
   */
  lemma LogChangeKeepsLogWellFormed(t: Tables, draws: nat, rng: nat -> Utils.Draw, enabled: bool,
                                    table: string, id: Value, operation: string, now: int)
    requires Sync.ChangeLogTable in t && WellFormedLog(t[Sync.ChangeLogTable])
    ensures var s := LogChangeSpec(t, draws, rng, IdColumn, enabled, table, id, operation, now);
            && Sync.ChangeLogTable in s.tables && WellFormedLog(s.tables[Sync.ChangeLogTable])
            && s.tables == t[Sync.ChangeLogTable := s.tables[Sync.ChangeLogTable]]
  {
    if table in Sync.NoLog || !enabled {
      return;
    }
    if CountWhere(t[Sync.ChangeLogTable], ObjectIdColumn, id) == 0 {
      AddKeepsLog(t, draws, rng, table, id, operation, now);
      return;
    }
    var r0 := FoundEntry(t, id);
    if "operation" in r0 && r0["operation"] == Str("I") && operation == "D" {
      DropKeepsLog(t, draws, rng, table, id, now, r0);
    } else {
      RewriteKeepsLog(t, draws, rng, table, id, operation, now, r0);
    }
  }

  lemma DropCoalesces(t: Tables, draws: nat, rng: nat -> Utils.Draw, table: string, id: Value, now: int, r0: Row)
    requires Sync.ChangeLogTable in t && WellFormedLog(t[Sync.ChangeLogTable]) && table !in Sync.NoLog
    requires r0 in t[Sync.ChangeLogTable] && Matches(r0, ColumnIs(ObjectIdColumn, id))
    requires "operation" in r0 && r0["operation"] == Str("I")
    ensures var s := LogChangeSpec(t, draws, rng, IdColumn, true, table, id, "D", now);
            && s.draws == draws && Sync.ChangeLogTable in s.tables && s.outcome == Success(Int(1))
            && CountWhere(s.tables[Sync.ChangeLogTable], ObjectIdColumn, id) == 0
  {
    DropStep(t, draws, rng, table, id, now, r0);
    DropEntry(t[Sync.ChangeLogTable], r0, id);
  }

  lemma RewriteCoalesces(t: Tables, draws: nat, rng: nat -> Utils.Draw, table: string, id: Value, operation: string,
                         now: int, r0: Row)
    requires Sync.ChangeLogTable in t && WellFormedLog(t[Sync.ChangeLogTable]) && table !in Sync.NoLog
    requires r0 in t[Sync.ChangeLogTable] && Matches(r0, ColumnIs(ObjectIdColumn, id))
    requires !("operation" in r0 && r0["operation"] == Str("I") && operation == "D")
    ensures var s := LogChangeSpec(t, draws, rng, IdColumn, true, table, id, operation, now);
            && IdColumn in r0
            && s.draws == draws && Sync.ChangeLogTable in s.tables && s.outcome == Success(r0[IdColumn])
            && Filter(s.tables[Sync.ChangeLogTable], ColumnIs(ObjectIdColumn, id)) ==
               [r0 + NewLog(table, id, CoalescedOperation(r0, operation), now)]
  {
    RewriteStep(t, draws, rng, table, id, operation, now, r0);
    RewriteEntry(t[Sync.ChangeLogTable], r0, id, NewLog(table, id, CoalescedOperation(r0, operation), now));
  }

  /**
   * The coalescing rules on an object that already has an entry `r0` in a
   * well-formed log: an insert followed by a delete removes the entry;
   * any other change keeps the entry's id and rewrites it with the new
   * table, timestamp and operation, except that an insert followed by an
   * update stays an insert.
   */
  lemma LogChangeCoalesces(t: Tables, draws: nat, rng: nat -> Utils.Draw,
                           table: string, id: Value, operation: string, now: int, r0: Row)
    requires Sync.ChangeLogTable in t && WellFormedLog(t[Sync.ChangeLogTable]) && table !in Sync.NoLog
    requires r0 in t[Sync.ChangeLogTable] && Matches(r0, ColumnIs(ObjectIdColumn, id))
    ensures var s := LogChangeSpec(t, draws, rng, IdColumn, true, table, id, operation, now);
            var wasInsert := "operation" in r0 && r0["operation"] == Str("I");
            && s.draws == draws
            && Sync.ChangeLogTable in s.tables
            && (wasInsert && operation == "D" ==>
                  && s.outcome == Success(Int(1))
                  && CountWhere(s.tables[Sync.ChangeLogTable], ObjectIdColumn, id) == 0)
            && (!(wasInsert && operation == "D") ==>
                  && IdColumn in r0
                  && s.outcome == Success(r0[IdColumn])
                  && Filter(s.tables[Sync.ChangeLogTable], ColumnIs(ObjectIdColumn, id)) ==
                     [r0 + NewLog(table, id, if wasInsert && operation == "U" then "I" else operation, now)])
  {
    if "operation" in r0 && r0["operation"] == Str("I") && operation == "D" {
      DropCoalesces(t, draws, rng, table, id, now, r0);
    } else {
      RewriteCoalesces(t, draws, rng, table, id, operation, now, r0);
    }
  }

  /** The first change of an object not yet in the log: a new entry under the next guid. */
  lemma FirstChange(t: Tables, draws: nat, rng: nat -> Utils.Draw, table: string, id: Value, operation: string, now: int)
    requires Sync.ChangeLogTable in t && WellFormedLog(t[Sync.ChangeLogTable]) && table !in Sync.NoLog
    requires id != Null && CountWhere(t[Sync.ChangeLogTable], ObjectIdColumn, id) == 0
    requires CountWhere(t[Sync.ChangeLogTable], IdColumn, Str(Utils.Guid(rng, draws))) == 0
    ensures var g := Str(Utils.Guid(rng, draws));
            var row := NewLog(table, id, operation, now)[IdColumn := g];
            && LogChangeSpec(t, draws, rng, IdColumn, true, table, id, operation, now) ==
               Step(t[Sync.ChangeLogTable := t[Sync.ChangeLogTable] + [row]], draws + 8, Success(g))
            && WellFormedLog(t[Sync.ChangeLogTable] + [row])
            && Matches(row, ColumnIs(ObjectIdColumn, id)) && HasId(row, g)
  {
    ReadLogCases(t, id);
    AddEntry(t, draws, rng, table, id, operation, now);
  }

  /** The delete that follows an insert: it drops the entry the insert appended, leaving `t` as it was. */
  lemma DeleteAfterInsert(t: Tables, draws: nat, rng: nat -> Utils.Draw, row: Row,
                          table2: string, id: Value, now2: int)
    requires Sync.ChangeLogTable in t && table2 !in Sync.NoLog
    requires WellFormedLog(t[Sync.ChangeLogTable] + [row])
    requires Matches(row, ColumnIs(ObjectIdColumn, id)) && IdColumn in row && "operation" in row
    requires row["operation"] == Str("I") && CountWhere(t[Sync.ChangeLogTable], IdColumn, row[IdColumn]) == 0
    ensures var s := LogChangeSpec(t[Sync.ChangeLogTable := t[Sync.ChangeLogTable] + [row]], draws, rng,
                                   IdColumn, true, table2, id, "D", now2);
            s.outcome == Success(Int(1)) && s.tables == t
  {
    var rows := t[Sync.ChangeLogTable];
    var g := row[IdColumn];
    var t1 := t[Sync.ChangeLogTable := rows + [row]];
    var r0 := FoundEntry(t1, id) by {
      assert row in t1[Sync.ChangeLogTable];
      FilterMembers(t1[Sync.ChangeLogTable], ColumnIs(ObjectIdColumn, id));
      assert row in Filter(t1[Sync.ChangeLogTable], ColumnIs(ObjectIdColumn, id));
    }
    OnlyMatch(rows + [row], ColumnIs(ObjectIdColumn, id), r0, row);
    assert Field(WithoutNulls(row), "operation") == Some(Str("I"));
    var coalesced := NewLog(table2, id, "D", now2)[IdColumn := g];
    assert Bind(Field(coalesced, IdColumn)) == g;
    DropAppended(rows, row, g);
    assert t1[Sync.ChangeLogTable := rows] == t;
    assert RemoveSpec(t1, draws, IdColumn, coalesced, Sync.ChangeLogTable) == Step(t, draws, Success(1));
  }

  /** Deleting by the id of the last row appended, an id no earlier row has, gives back the earlier rows. */
  lemma DropAppended(rows: seq<Row>, row: Row, g: Value)
    requires IdColumn in row && row[IdColumn] == g && g != Null
    requires CountWhere(rows, IdColumn, g) == 0
    ensures Without(rows + [row], g) == rows
    ensures CountWhere(rows + [row], IdColumn, g) == 1
  {
    WithoutAppend(rows, [row], g);
    WithoutNoMatch(rows, g);
    assert HasId(row, g);
    assert Without([row], g) == [];
    CountAppendOne(rows, row, IdColumn, g);
  }

  /**
   * An object inserted and then deleted before the next exchange leaves no
   * trace: the delete removes the entry the insert added, whatever table it
   * names, and the change log is exactly as before.
   */
  lemma InsertThenDeleteLeavesNoTrace(t: Tables, draws: nat, rng: nat -> Utils.Draw,
                                      table: string, table2: string, id: Value, now: int, now2: int)
    requires Sync.ChangeLogTable in t && WellFormedLog(t[Sync.ChangeLogTable])
    requires table !in Sync.NoLog && table2 !in Sync.NoLog
    requires id != Null && CountWhere(t[Sync.ChangeLogTable], ObjectIdColumn, id) == 0
    requires CountWhere(t[Sync.ChangeLogTable], IdColumn, Str(Utils.Guid(rng, draws))) == 0
    ensures var s1 := LogChangeSpec(t, draws, rng, IdColumn, true, table, id, "I", now);
            var s2 := LogChangeSpec(s1.tables, s1.draws, rng, IdColumn, true, table2, id, "D", now2);
            && s1.outcome == Success(Str(Utils.Guid(rng, draws)))
            && s2.outcome == Success(Int(1))
            && s2.tables == t
  {
    var row := NewLog(table, id, "I", now)[IdColumn := Str(Utils.Guid(rng, draws))];
    FirstChange(t, draws, rng, table, id, "I", now);
    DeleteAfterInsert(t, draws + 8, rng, row, table2, id, now2);
  }

  /**
   * An object inserted and then updated before the next exchange is still
   * shipped as an insert: its single entry keeps the insert's id and takes
   * the update's table and timestamp.
   */
  lemma InsertThenUpdateStaysInsert(t: Tables, draws: nat, rng: nat -> Utils.Draw,
                                    table: string, table2: string, id: Value, now: int, now2: int)
    requires Sync.ChangeLogTable in t && WellFormedLog(t[Sync.ChangeLogTable])
    requires table !in Sync.NoLog && table2 !in Sync.NoLog
    requires id != Null && CountWhere(t[Sync.ChangeLogTable], ObjectIdColumn, id) == 0
    requires CountWhere(t[Sync.ChangeLogTable], IdColumn, Str(Utils.Guid(rng, draws))) == 0
    ensures var g := Str(Utils.Guid(rng, draws));
            var s1 := LogChangeSpec(t, draws, rng, IdColumn, true, table, id, "I", now);
            var s2 := LogChangeSpec(s1.tables, s1.draws, rng, IdColumn, true, table2, id, "U", now2);
            && s2.outcome == Success(g)
            && Sync.ChangeLogTable in s2.tables
            && Filter(s2.tables[Sync.ChangeLogTable], ColumnIs(ObjectIdColumn, id)) ==
               [NewLog(table2, id, "I", now2)[IdColumn := g]]
  {
    var g := Str(Utils.Guid(rng, draws));
    FirstChange(t, draws, rng, table, id, "I", now);
    UpdateAfterInsert(t, draws + 8, rng, table, table2, id, now, now2, g);
  }

  /** The update that follows an insert: the entry keeps its id and stays an insert. */
  lemma UpdateAfterInsert(t: Tables, draws: nat, rng: nat -> Utils.Draw,
                          table: string, table2: string, id: Value, now: int, now2: int, g: Value)
    requires Sync.ChangeLogTable in t && table2 !in Sync.NoLog && id != Null
    requires WellFormedLog(t[Sync.ChangeLogTable] + [NewLog(table, id, "I", now)[IdColumn := g]])
    ensures var t1 := t[Sync.ChangeLogTable := t[Sync.ChangeLogTable] + [NewLog(table, id, "I", now)[IdColumn := g]]];
            var s := LogChangeSpec(t1, draws, rng, IdColumn, true, table2, id, "U", now2);
            && s.outcome == Success(g)
            && Sync.ChangeLogTable in s.tables
            && Filter(s.tables[Sync.ChangeLogTable], ColumnIs(ObjectIdColumn, id)) ==
               [NewLog(table2, id, "I", now2)[IdColumn := g]]
  {
    var row := NewLog(table, id, "I", now)[IdColumn := g];
    var t1 := t[Sync.ChangeLogTable := t[Sync.ChangeLogTable] + [row]];
    assert row in t1[Sync.ChangeLogTable];
    LogChangeCoalesces(t1, draws, rng, table2, id, "U", now2, row);
    RewrittenInsert(table, table2, id, now, now2, g);
  }

  lemma RewrittenInsert(table: string, table2: string, id: Value, now: int, now2: int, g: Value)
    ensures NewLog(table, id, "I", now)[IdColumn := g] + NewLog(table2, id, "I", now2) ==
            NewLog(table2, id, "I", now2)[IdColumn := g]
  {
  }

  /** An untracked table, or a disabled log: the store is untouched and the callback gets null. */
  lemma LogChangeUntracked(t: Tables, draws: nat, rng: nat -> Utils.Draw, pk: string, enabled: bool,
                           table: string, id: Value, operation: string, now: int)
    requires table in Sync.NoLog || !enabled
    ensures LogChangeSpec(t, draws, rng, pk, enabled, table, id, operation, now) == Step(t, draws, Success(Null))
  {
  }
}
