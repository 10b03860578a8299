/**
 * The synchronizer of shared/synchronizer.js: the delta of everything the
 * change log records after a point in time (getChangedData) and the full
 * snapshot of every tracked table (getAllData), both read from the row
 * store of a Database.
 */
module Sync {
  import opened Values
  import opened Sql
  import opened RowStore

  const ChangeLogTable := "ChangeLog"

  /**
   * Tables that are never shipped as data. `Synchronizer.noLog` is a
   * public, reassignable property; this model holds it at its initial value.
   */
  const NoLog: seq<string> := [ChangeLogTable]

  /** `getChangedData`'s answer: `{data: rows}`, or `{error: null, tables: []}` when nothing changed. */
  datatype ChangedData = Changes(data: seq<Row>) | NoChanges

  /** `row.table = log.tablename` */
  function TagWithLog(row: Row, log: Row): (r: Row)
    ensures r - {"table"} == row - {"table"}
  {
    WithField(row, "table", Field(log, "tablename"))
  }

  predicate IsDelete(log: Row) {
    Field(log, "operation") == Some(Str("D"))
  }

  /** The tombstone shipped for a deletion: `{id: log.object_id}`, tagged with its table. */
  function Tombstone(log: Row): Row {
    TagWithLog(WithField(map[], "id", Field(log, "object_id")), log)
  }

  /**
   * What one log entry contributes: a tombstone for a deletion, otherwise
   * the current row of the logged object, if it is still there. For an
   * insert or update entry a missing table is an error, no row under the
   * object's id yields nothing, and more than one is `findById`'s error.
   */
  function EntryOutput(t: Tables, log: Row): (r: Result<Option<Row>>)
    ensures IsDelete(log) ==> r == Ok(Some(Tombstone(log)))
    ensures var table, id := Stringify(Field(log, "tablename")), Bind(Field(log, "object_id"));
            !IsDelete(log) ==>
              (table !in t ==> r == Err(NoSuchTable(table))) &&
              (table in t && CountWhere(t[table], IdColumn, id) == 0 ==> r == Ok(None)) &&
              (table in t && CountWhere(t[table], IdColumn, id) > 1 ==> r.Err?)
  {
    if IsDelete(log) then Ok(Some(Tombstone(log)))
    else
      match FindByIdSpec(t, Stringify(Field(log, "tablename")), Bind(Field(log, "object_id")))
      case Failure(m) => Err(m)
      case Success(found) =>
        if found.Some? then Ok(Some(TagWithLog(found.value, log))) else Ok(None)
      case NoCallback => Ok(None)
  }

  /** An insert or update entry whose object is stored once yields that row, nulls stripped and tagged with its table. */
  lemma EntryOutputFound(t: Tables, log: Row, x: Row)
    requires !IsDelete(log)
    requires var table, id := Stringify(Field(log, "tablename")), Bind(Field(log, "object_id"));
             table in t && x in t[table] && HasId(x, id) && CountWhere(t[table], IdColumn, id) == 1
    ensures EntryOutput(t, log) == Ok(Some(TagWithLog(WithoutNulls(x), log)))
  {
    var table, id := Stringify(Field(log, "tablename")), Bind(Field(log, "object_id"));
    var w := ColumnIs(IdColumn, id);
    FilterMembers(t[table], w);
    var found := Filter(t[table], w);
    assert x in found;
    assert found == [x];
  }

  /** The entries in order; the first error ends the walk. */
  function Extract(t: Tables, logs: seq<Row>): Result<seq<Row>> {
    if logs == [] then Ok([])
    else
      match Extract(t, logs[..|logs| - 1])
      case Err(m) => Err(m)
      case Ok(data) =>
        match EntryOutput(t, logs[|logs| - 1])
        case Err(m) => Err(m)
        case Ok(row) => Ok(if row.Some? then data + [row.value] else data)
  }

  /** The query of the change log: entries after `start`, oldest first. */
  function LogQuery(start: int): Query {
    Select(ChangeLogTable, TimestampAfter(start))
  }

  /** `getChangedData(start)`; `None` stands for a start that is missing or not a Date. */
  function ChangedSpec(t: Tables, start: Option<int>): Outcome<ChangedData> {
    if start.None? then Failure("Pass start date")
    else
      match QuerySpec(t, LogQuery(start.value))
      case Failure(m) => Failure(m)
      case NoCallback => NoCallback
      case Success(logs) =>
        if logs == [] then Success(NoChanges)
        else
          match Extract(t, logs)
          case Err(m) => Failure(m)
          case Ok(data) => Success(Changes(data))
  }

  /** `row.table = table` for every row a findAll returned. */
  function TagAll(rows: seq<Row>, table: string): (r: seq<Row>)
    ensures |r| == |rows|
    ensures forall i :: 0 <= i < |rows| ==> r[i] == rows[i]["table" := Str(table)]
  {
    seq(|rows|, i requires 0 <= i < |rows| => rows[i]["table" := Str(table)])
  }

  /** The rows of every schema table outside NoLog, tagged and in schema order, or the first error. */
  function Collect(t: Tables, names: seq<string>): Result<seq<Row>> {
    if names == [] then Ok([])
    else
      var last := names[|names| - 1];
      match Collect(t, names[..|names| - 1])
      case Err(m) => Err(m)
      case Ok(data) =>
        if last in NoLog then Ok(data)
        else
          match QuerySpec(t, Select(last, Everything))
          case Failure(m) => Err(m)
          case NoCallback => Ok(data)
          case Success(rows) => Ok(data + TagAll(rows, last))
  }

  /** `getAllData` as corrected: one answer, once every tracked table has been read. */
  function AllDataSpec(t: Tables, schema: Result<seq<string>>): Outcome<seq<Row>> {
    match schema
    case Err(m) => Failure(m)
    case Ok(names) =>
      match Collect(t, names)
      case Err(m) => Failure(m)
      case Ok(data) => Success(data)
  }

  /**
   * The callbacks `getAllData` as written makes while the tables answer in
   * schema order: the countdown starts at the number of schema tables less
   * the length of NoLog, and the answer goes out when it reaches zero.
   */
  function CountdownAsWritten(t: Tables, names: seq<string>, count: int, data: seq<Row>): seq<Outcome<seq<Row>>> {
    if names == [] then []
    else if names[0] in NoLog then CountdownAsWritten(t, names[1..], count, data)
    else
      match QuerySpec(t, Select(names[0], Everything))
      case Failure(m) => [Failure(m)] + CountdownAsWritten(t, names[1..], count, data)
      case NoCallback => CountdownAsWritten(t, names[1..], count, data)
      case Success(rows) =>
        var more := data + TagAll(rows, names[0]);
        (if count - 1 == 0 then [Success(more)] else []) + CountdownAsWritten(t, names[1..], count - 1, more)
  }

  function AllDataCallsAsWritten(t: Tables, schema: Result<seq<string>>): seq<Outcome<seq<Row>>> {
    match schema
    case Err(m) => [Failure(m)]
    case Ok(names) => CountdownAsWritten(t, names, |names| - |NoLog|, [])
  }

  /** A schema without the change log table: as written, no answer ever comes. */
  lemma AllDataWithoutChangeLogNeverAnswers(t: Tables)
    requires "Task" in t
    ensures AllDataCallsAsWritten(t, Ok(["Task"])) == []
    ensures AllDataSpec(t, Ok(["Task"])) == Success(TagAll(NullsStripped(t["Task"]), "Task"))
  {
    var names := ["Task"];
    assert "Task" != ChangeLogTable by { assert "Task"[0] != ChangeLogTable[0]; }
    assert "Task" !in NoLog;
    FilterEverything(t["Task"]);
    var tagged := TagAll(NullsStripped(t["Task"]), "Task");
    assert QuerySpec(t, Select("Task", Everything)) == Success(NullsStripped(t["Task"]));
    assert names[1..] == [] && names[..0] == [];
    assert CountdownAsWritten(t, names, 0, []) == CountdownAsWritten(t, [], -1, [] + tagged);
    assert Collect(t, names) == Ok([] + tagged);
    assert [] + tagged == tagged;
  }

  /** Every table of the schema is there and none is the change log. */
  predicate TrackedAndPresent(t: Tables, names: seq<string>) {
    forall i :: 0 <= i < |names| ==> names[i] in t && names[i] != ChangeLogTable
  }

  /** Collect read front to back: the first table's rows, then the rest's. */
  lemma {:induction false} CollectCons(t: Tables, first: string, rest: seq<string>)
    requires first in t && TrackedAndPresent(t, [first] + rest)
    ensures Collect(t, rest).Ok?
    ensures Collect(t, [first] + rest) == Ok(TagAll(NullsStripped(t[first]), first) + Collect(t, rest).value)
  {
    var ns := [first] + rest;
    FilterEverything(t[first]);
    var head := TagAll(NullsStripped(t[first]), first);
    if rest == [] {
      assert ns[..0] == [];
      assert [] + head == head + [];
    } else {
      var init := rest[..|rest| - 1];
      var last := rest[|rest| - 1];
      assert ns[..|ns| - 1] == [first] + init;
      assert TrackedAndPresent(t, [first] + init) by {
        forall i | 0 <= i < |[first] + init| ensures ([first] + init)[i] == ns[i] {
        }
      }
      CollectCons(t, first, init);
      assert last == ns[|ns| - 1] && last in t && last !in NoLog;
      FilterEverything(t[last]);
      var tail := TagAll(NullsStripped(t[last]), last);
      assert Collect(t, rest) == Ok(Collect(t, init).value + tail);
      assert (head + Collect(t, init).value) + tail == head + (Collect(t, init).value + tail);
    }
  }

  /**
   * The countdown as written over tracked tables that all answer: the answer
   * goes out once, when `count` tables have been read, holding their rows;
   * with a count outside 1..|names| it never goes out.
   */
  lemma {:induction false} CountdownFires(t: Tables, names: seq<string>, count: int, data: seq<Row>)
    requires TrackedAndPresent(t, names)
    ensures 1 <= count <= |names| ==> Collect(t, names[..count]).Ok?
    ensures CountdownAsWritten(t, names, count, data) ==
            if 1 <= count <= |names| then [Success(data + Collect(t, names[..count]).value)] else []
  {
    if names != [] {
      var first, rest := names[0], names[1..];
      assert TrackedAndPresent(t, rest) by {
        forall i | 0 <= i < |rest| ensures rest[i] == names[i + 1] {
        }
      }
      var head := TagAll(NullsStripped(t[first]), first);
      CountdownStep(t, names, count, data);
      CountdownFires(t, rest, count - 1, data + head);
      if 1 <= count <= |names| {
        CollectPrefix(t, names, count);
        var tail := Collect(t, rest[..count - 1]).value;
        assert (data + head) + tail == data + (head + tail);
        if count == 1 {
          assert data + (head + tail) == data + head;
        }
      }
    }
  }

  /** One table of the countdown: its rows join the data, and the answer goes out if the count reaches zero. */
  lemma CountdownStep(t: Tables, names: seq<string>, count: int, data: seq<Row>)
    requires names != [] && names[0] in t && names[0] != ChangeLogTable
    ensures var head := TagAll(NullsStripped(t[names[0]]), names[0]);
            CountdownAsWritten(t, names, count, data) ==
            (if count == 1 then [Success(data + head)] else []) + CountdownAsWritten(t, names[1..], count - 1, data + head)
  {
    assert names[0] !in NoLog;
    FilterEverything(t[names[0]]);
  }

  /** The first `count` tables' rows are the first table's, then those of the next `count - 1`. */
  lemma CollectPrefix(t: Tables, names: seq<string>, count: int)
    requires TrackedAndPresent(t, names) && 1 <= count <= |names|
    ensures Collect(t, names[1..][..count - 1]).Ok? && Collect(t, names[..count]).Ok?
    ensures Collect(t, names[..count]).value ==
            TagAll(NullsStripped(t[names[0]]), names[0]) + Collect(t, names[1..][..count - 1]).value
    ensures count == 1 ==> Collect(t, names[1..][..count - 1]).value == []
  {
    var first, rest := names[0], names[1..][..count - 1];
    assert names[..count] == [first] + rest;
    assert TrackedAndPresent(t, [first] + rest) by {
      forall i | 0 <= i < count ensures names[..count][i] == names[i] {
      }
    }
    CollectCons(t, first, rest);
    if count == 1 {
      assert rest == [];
    }
  }

  /**
   * A schema of tracked tables without the change log, as written: the
   * countdown starts one short, so with one table no answer ever comes, and
   * with more the answer goes out early, holding every table's rows but the
   * last one's. The corrected getAllData returns them all.
   */
  lemma AllDataWithoutChangeLogAnswersEarly(t: Tables, names: seq<string>)
    requires |names| >= 1 && TrackedAndPresent(t, names)
    ensures Collect(t, names[..|names| - 1]).Ok?
    ensures var early := Collect(t, names[..|names| - 1]).value;
            var last := names[|names| - 1];
            AllDataCallsAsWritten(t, Ok(names)) == (if |names| == 1 then [] else [Success(early)]) &&
            AllDataSpec(t, Ok(names)) == Success(early + TagAll(NullsStripped(t[last]), last))
  {
    var n := |names| - 1;
    assert |NoLog| == 1;
    CountdownFires(t, names, n, []);
    if n >= 1 {
      assert [] + Collect(t, names[..n]).value == Collect(t, names[..n]).value;
    } else {
      assert names[..0] == [];
    }
    var last := names[n];
    assert last !in NoLog;
    FilterEverything(t[last]);
  }

  /** A schema holding only the change log: as written, no answer either; corrected, no rows. */
  lemma AllDataOfNoTrackedTableNeverAnswers(t: Tables)
    ensures AllDataCallsAsWritten(t, Ok([ChangeLogTable])) == []
    ensures AllDataSpec(t, Ok([ChangeLogTable])) == Success([])
  {
    var names := [ChangeLogTable];
    assert ChangeLogTable in NoLog;
    assert names[1..] == [] && names[..0] == [];
    assert CountdownAsWritten(t, names, 0, []) == CountdownAsWritten(t, [], 0, []);
    assert Collect(t, names) == Ok([]);
  }

  class Synchronizer {
    /** `getDB()` */
    const db: Database
    /** `isChangeLogEnabled()` */
    var changeLog: bool

    /** `initialize(database)`: the change log starts enabled. */
    constructor (database: Database)
      ensures db == database && changeLog
    {
      db := database;
      changeLog := true;
    }

    method EnableChangeLog(flag: bool)
      modifies this`changeLog
      ensures changeLog == flag
    {
      changeLog := flag;
    }

    /** `getLogForObject(id)`: the id is not used; every log entry comes back. */
    method GetLogForObject(id: Value) returns (r: Outcome<seq<Row>>)
      ensures r == QuerySpec(db.tables, Select(ChangeLogTable, Everything))
    {
      r := db.Query(Select(ChangeLogTable, Everything));
    }

    /** What `addRowToResult` receives for one log entry. */
    method ChangedRow(log: Row) returns (r: Result<Option<Row>>)
      ensures r == EntryOutput(db.tables, log)
    {
      if IsDelete(log) {
        return Ok(Some(Tombstone(log)));
      }
      var found := db.FindById(Stringify(Field(log, "tablename")), Bind(Field(log, "object_id")));
      match found
      case Failure(m) =>
        r := Err(m);
      case Success(row) =>
        r := if row.Some? then Ok(Some(TagWithLog(row.value, log))) else Ok(None);
      case NoCallback =>
        r := Ok(None);
    }

    method GetChangedData(start: Option<int>) returns (r: Outcome<ChangedData>)
      ensures r == ChangedSpec(db.tables, start)
    {
      if start.None? {
        return Failure("Pass start date");
      }
      var logs := db.Query(LogQuery(start.value));
      match logs
      case Failure(m) =>
        r := Failure(m);
      case NoCallback =>
        r := NoCallback;
      case Success(rows) =>
        if rows == [] {
          return Success(NoChanges);
        }
        var data := [];
        var i := 0;
        while i < |rows|
          invariant 0 <= i <= |rows|
          invariant Extract(db.tables, rows[..i]) == Ok(data)
        {
          var row := ChangedRow(rows[i]);
          assert rows[..i + 1][..i] == rows[..i];
          match row
          case Err(m) =>
            ExtractStopsAtError(db.tables, rows, i + 1);
            return Failure(m);
          case Ok(found) =>
            if found.Some? {
              data := data + [found.value];
            }
          i := i + 1;
        }
        assert rows[..i] == rows;
        r := Success(Changes(data));
    }

    method GetAllData(schema: Result<seq<string>>) returns (r: Outcome<seq<Row>>)
      ensures r == AllDataSpec(db.tables, schema)
    {
      if schema.Err? {
        return Failure(schema.message);
      }
      var names := schema.value;
      var data := [];
      var i := 0;
      while i < |names|
        invariant 0 <= i <= |names|
        invariant Collect(db.tables, names[..i]) == Ok(data)
      {
        assert names[..i + 1][..i] == names[..i];
        if names[i] !in NoLog {
          var rows := db.FindAll(names[i]);
          match rows
          case Failure(m) =>
            CollectStopsAtError(db.tables, names, i + 1);
            return Failure(m);
          case NoCallback =>
          case Success(found) =>
            data := data + TagAll(found, names[i]);
        }
        i := i + 1;
      }
      assert names[..i] == names;
      r := Success(data);
    }
  }

  /** `new Synchronizer(database)`: refused without a database. */
  method NewSynchronizer(database: Database?) returns (s: Synchronizer?, error: Option<string>)
    ensures database == null ==> s == null && error == Some("You must specify database reference as parameter.")
    ensures database != null ==> s != null && fresh(s) && s.db == database && s.changeLog && error.None?
  {
    if database == null {
      return null, Some("You must specify database reference as parameter.");
    }
    s := new Synchronizer(database);
    error := None;
  }

  // ------------------------------------------------------------------ lemmas

  lemma {:induction false} ExtractStopsAtError(t: Tables, logs: seq<Row>, i: nat)
    requires i <= |logs| && Extract(t, logs[..i]).Err?
    ensures Extract(t, logs) == Extract(t, logs[..i])
    decreases |logs| - i
  {
    if i == |logs| {
      assert logs[..i] == logs;
    } else {
      assert logs[..i + 1][..i] == logs[..i];
      ExtractStopsAtError(t, logs, i + 1);
    }
  }

  lemma {:induction false} CollectStopsAtError(t: Tables, names: seq<string>, i: nat)
    requires i <= |names| && Collect(t, names[..i]).Err?
    ensures Collect(t, names) == Collect(t, names[..i])
    decreases |names| - i
  {
    if i == |names| {
      assert names[..i] == names;
    } else {
      assert names[..i + 1][..i] == names[..i];
      CollectStopsAtError(t, names, i + 1);
    }
  }

  /** A delta has no more rows than the log has entries. */
  lemma {:induction false} ExtractAtMostOnePerEntry(t: Tables, logs: seq<Row>)
    ensures Extract(t, logs).Ok? ==> |Extract(t, logs).value| <= |logs|
  {
    if logs != [] {
      ExtractAtMostOnePerEntry(t, logs[..|logs| - 1]);
    }
  }

  /** A log of deletions only ships exactly its tombstones, in log order, whatever the store holds. */
  lemma {:induction false} DeletionsNeedNoStore(t: Tables, logs: seq<Row>)
    requires forall i :: 0 <= i < |logs| ==> IsDelete(logs[i])
    ensures Extract(t, logs) == Ok(seq(|logs|, i requires 0 <= i < |logs| => Tombstone(logs[i])))
  {
    if logs != [] {
      var init := logs[..|logs| - 1];
      DeletionsNeedNoStore(t, init);
      var last := logs[|logs| - 1];
      var shipped := seq(|logs|, i requires 0 <= i < |logs| => Tombstone(logs[i]));
      var before := seq(|init|, i requires 0 <= i < |init| => Tombstone(init[i]));
      assert IsDelete(last);
      assert EntryOutput(t, last) == Ok(Some(Tombstone(last)));
      assert Extract(t, logs) == Ok(before + [Tombstone(last)]);
      assert shipped == before + [Tombstone(last)];
    } else {
      assert seq(|logs|, i requires 0 <= i < |logs| => Tombstone(logs[i])) == [];
    }
  }

  /**
   * The entries getChangedData walks are the change log rows stamped after
   * `start`, each exactly as often as it is stored, oldest first.
   */
  lemma LogWindow(t: Tables, start: int)
    requires ChangeLogTable in t
    ensures var window := SortByTs(Filter(t[ChangeLogTable], TimestampAfter(start)));
            && QuerySpec(t, LogQuery(start)) == Success(NullsStripped(window))
            && SortedByTs(window)
            && (forall x :: multiset(window)[x] ==
                  if Matches(x, TimestampAfter(start)) then multiset(t[ChangeLogTable])[x] else 0)
  {
    var chosen := Filter(t[ChangeLogTable], TimestampAfter(start));
    SortByTsFacts(chosen);
    FilterMultiset(t[ChangeLogTable], TimestampAfter(start));
  }

  /**
   * A tombstone the server ships carries its table name beside the id, so
   * the row store's test for a deletion, one key and nothing else, does not
   * recognise it.
   */
  lemma ShippedTombstoneIsNotDeletedObject(log: Row)
    requires "tablename" in log && "object_id" in log
    ensures Tombstone(log).Keys == {"id", "table"}
    ensures !IsDeletedObject(Tombstone(log), DefaultPrimaryKey)
  {
    assert |{"id", "table"}| == 2;
  }

  /** getAllData never ships the change log, and tags each row with the table it came from. */
  lemma {:induction false} CollectTagsTrackedTables(t: Tables, names: seq<string>)
    ensures Collect(t, names).Ok? ==>
              forall x: Row :: x in Collect(t, names).value ==>
                "table" in x && x["table"].Str? && x["table"].s in names && x["table"].s !in NoLog
  {
    if names != [] {
      var init := names[..|names| - 1];
      CollectTagsTrackedTables(t, init);
      assert forall n :: n in init ==> n in names;
    }
  }
}
