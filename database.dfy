/**
 * The row store of shared/database.js: save/add/update/remove, exist,
 * findById and query over the backend of module Sql, and batchUpdate,
 * which applies a delta of rows and tombstones table by table.
 *
 * Each operation that changes the store is a method of class Database
 * whose postcondition equates the new tables, the generator position and
 * the reported outcome with a specification function (AddSpec, SaveSpec,
 * ...); the lemmas at the end of the module are about those functions.
 */
module RowStore {
  import opened Values
  import opened Sql
  import Utils

  /** The primary key `initialize` starts with. */
  const DefaultPrimaryKey := "id"

  predicate Distinct(s: seq<string>) {
    forall i, j :: 0 <= i < j < |s| ==> s[i] != s[j]
  }

  // ------------------------------------------------------ statement builders

  /**
   * The column, placeholder and value lists `add` assembles: the key first,
   * bound to `id`, then every other field of the obj once.
   */
  method BuildInsert(obj: Row, pk: string, id: Value)
    returns (columns: seq<string>, placeholders: seq<string>, values: seq<Value>)
    ensures |columns| == |placeholders| == |values| >= 1
    ensures columns[0] == pk && values[0] == id
    ensures forall i :: 0 <= i < |placeholders| ==> placeholders[i] == "?"
    ensures Distinct(columns)
    ensures forall i :: 1 <= i < |columns| ==>
              columns[i] in obj && columns[i] != pk && values[i] == obj[columns[i]]
    ensures forall f :: f in obj && f != pk ==> f in columns
  {
    columns, placeholders, values := [pk], ["?"], [id];
    var todo := obj.Keys;
    while todo != {}
      invariant todo <= obj.Keys
      invariant |columns| == |placeholders| == |values| >= 1
      invariant columns[0] == pk && values[0] == id
      invariant forall i :: 0 <= i < |placeholders| ==> placeholders[i] == "?"
      invariant Distinct(columns)
      invariant forall i :: 1 <= i < |columns| ==>
                  columns[i] in obj && columns[i] != pk && columns[i] !in todo && values[i] == obj[columns[i]]
      invariant forall f :: f in obj && f != pk && f !in todo ==> f in columns
      decreases todo
    {
      var field :| field in todo;
      if field != pk {
        placeholders := placeholders + ["?"];
        values := values + [obj[field]];
        columns := columns + [field];
      }
      todo := todo - {field};
    }
  }

  /**
   * The SET list `update` assembles, one `field = ?` per non-key field, with
   * the bound values followed by the key value last. `columns` names the
   * field of each SET entry.
   */
  method BuildUpdate(obj: Row, pk: string)
    returns (sets: seq<string>, columns: seq<string>, values: seq<Value>)
    ensures |sets| == |columns| && |values| == |columns| + 1
    ensures forall i :: 0 <= i < |sets| ==> sets[i] == columns[i] + " = ?"
    ensures values[|columns|] == Bind(Field(obj, pk))
    ensures Distinct(columns)
    ensures forall i :: 0 <= i < |columns| ==>
              columns[i] in obj && columns[i] != pk && values[i] == obj[columns[i]]
    ensures forall f :: f in obj && f != pk ==> f in columns
  {
    sets, columns, values := [], [], [];
    var todo := obj.Keys;
    while todo != {}
      invariant todo <= obj.Keys
      invariant |sets| == |columns| == |values|
      invariant forall i :: 0 <= i < |sets| ==> sets[i] == columns[i] + " = ?"
      invariant Distinct(columns)
      invariant forall i :: 0 <= i < |columns| ==>
                  columns[i] in obj && columns[i] != pk && columns[i] !in todo && values[i] == obj[columns[i]]
      invariant forall f :: f in obj && f != pk && f !in todo ==> f in columns
      decreases todo
    {
      var field :| field in todo;
      if field != pk {
        values := values + [obj[field]];
        sets := sets + [field + " = ?"];
        columns := columns + [field];
      }
      todo := todo - {field};
    }
    values := values + [Bind(Field(obj, pk))];
  }

  lemma {:induction false} ZipAt(columns: seq<string>, values: seq<Value>, i: nat)
    requires |columns| == |values| && Distinct(columns) && i < |columns|
    ensures Zip(columns, values)[columns[i]] == values[i]
  {
    if i > 0 {
      assert Distinct(columns[1..]) by {
        forall a, b | 0 <= a < b < |columns[1..]| ensures columns[1..][a] != columns[1..][b] {
          assert columns[1..][a] == columns[a + 1] && columns[1..][b] == columns[b + 1];
        }
      }
      ZipAt(columns[1..], values[1..], i - 1);
    }
  }

  /** The row an INSERT built by `add` stores is the obj with its key set to `id`. */
  lemma InsertedRow(obj: Row, pk: string, id: Value, columns: seq<string>, values: seq<Value>)
    requires |columns| == |values| >= 1 && columns[0] == pk && values[0] == id && Distinct(columns)
    requires forall i :: 1 <= i < |columns| ==>
               columns[i] in obj && columns[i] != pk && values[i] == obj[columns[i]]
    requires forall f :: f in obj && f != pk ==> f in columns
    ensures Zip(columns, values) == obj[pk := id]
  {
    var z := Zip(columns, values);
    forall c | c in z ensures c in obj[pk := id] && z[c] == obj[pk := id][c] {
      var i :| 0 <= i < |columns| && columns[i] == c;
      ZipAt(columns, values, i);
    }
    forall c | c in obj[pk := id] ensures c in z {
    }
  }

  /** The SET list `update` builds assigns exactly the obj without its key. */
  lemma UpdatedFields(obj: Row, pk: string, columns: seq<string>, values: seq<Value>)
    requires |columns| == |values| && Distinct(columns)
    requires forall i :: 0 <= i < |columns| ==>
               columns[i] in obj && columns[i] != pk && values[i] == obj[columns[i]]
    requires forall f :: f in obj && f != pk ==> f in columns
    ensures Zip(columns, values) == obj - {pk}
    ensures columns == [] <==> obj - {pk} == map[]
  {
    var z := Zip(columns, values);
    forall c | c in z ensures c in obj - {pk} && z[c] == (obj - {pk})[c] {
      var i :| 0 <= i < |columns| && columns[i] == c;
      ZipAt(columns, values, i);
    }
    if columns != [] {
      assert columns[0] in obj - {pk};
    }
  }

  // ------------------------------------------------------------------ query

  /** A row without its null-valued fields. */
  function WithoutNulls(row: Row): Row {
    map k | k in row && row[k] != Null :: row[k]
  }

  function NullsStripped(rows: seq<Row>): seq<Row> {
    seq(|rows|, i requires 0 <= i < |rows| => WithoutNulls(rows[i]))
  }

  /** `query`'s pass over the reply: every null-valued field is deleted from every row. */
  method DeleteNullFields(rows: seq<Row>) returns (out: seq<Row>)
    ensures |out| == |rows|
    ensures forall i, k :: 0 <= i < |rows| ==> (k in out[i] <==> k in rows[i] && rows[i][k] != Null)
    ensures forall i, k :: 0 <= i < |rows| && k in out[i] ==> out[i][k] == rows[i][k]
  {
    out := rows;
    var i := 0;
    while i < |out|
      invariant 0 <= i <= |out| == |rows|
      invariant forall j, k :: 0 <= j < i ==> (k in out[j] <==> k in rows[j] && rows[j][k] != Null)
      invariant forall j, k :: 0 <= j < i && k in out[j] ==> out[j][k] == rows[j][k]
      invariant forall j :: i <= j < |rows| ==> out[j] == rows[j]
    {
      var row := out[i];
      var keys := row.Keys;
      while keys != {}
        invariant keys <= rows[i].Keys
        invariant forall k :: k in row <==> k in rows[i] && (k in keys || rows[i][k] != Null)
        invariant forall k :: k in row ==> row[k] == rows[i][k]
        decreases keys
      {
        var key :| key in keys;
        if row[key] == Null {
          row := row - {key};
        }
        keys := keys - {key};
      }
      out := out[i := row];
      i := i + 1;
    }
  }

  lemma DeletedNullsAgree(rows: seq<Row>, out: seq<Row>)
    requires |out| == |rows|
    requires forall i, k :: 0 <= i < |rows| ==> (k in out[i] <==> k in rows[i] && rows[i][k] != Null)
    requires forall i, k :: 0 <= i < |rows| && k in out[i] ==> out[i][k] == rows[i][k]
    ensures out == NullsStripped(rows)
  {
    forall i | 0 <= i < |rows| ensures out[i] == WithoutNulls(rows[i]) {
    }
  }

  /**
   * `query` as corrected: an error from executeSQL is passed on; otherwise
   * the rows come back without their null fields.
   */
  function QuerySpec(t: Tables, q: Query): (r: Outcome<seq<Row>>)
    ensures !r.NoCallback?
  {
    match Read(t, q)
    case Err(m) => Failure(m)
    case Ok(rows) => Success(NullsStripped(rows))
  }

  /** How `query`'s callback ends: it reads `result.rows` before it looks at `error`. */
  datatype QueryCompletion = ThrewTypeError | Answered(outcome: Outcome<seq<Row>>)

  /**
   * `query` as written: on an error, executeSQL passes a null or undefined
   * result, and `result.rows` throws before the error can be reported.
   */
  function QueryAsWritten(reply: Result<seq<Row>>): QueryCompletion {
    match reply
    case Err(_) => ThrewTypeError
    case Ok(rows) => Answered(Success(NullsStripped(rows)))
  }

  /** On the error path, as written, the error never reaches the caller; the correction reports it. */
  lemma QueryErrorThrows(t: Tables, q: Query)
    requires q.table !in t
    ensures QueryAsWritten(Read(t, q)) == ThrewTypeError
    ensures QuerySpec(t, q) == Failure(NoSuchTable(q.table))
  {
  }

  // --------------------------------------------------------------- findById

  function DuplicateMessage(rows: seq<Row>): string
    requires |rows| > 0
  {
    NatString(|rows|) + " records with same id: " + Stringify(Field(rows[0], IdColumn))
  }

  /** `findById` as corrected: more than one row is an error, else the first row or nothing. */
  function FindByIdReply(q: Outcome<seq<Row>>): (r: Outcome<Option<Row>>)
    ensures q.Failure? ==> r == Failure(q.message)
    ensures q.Success? && |q.value| > 1 ==> r.Failure?
    ensures q.Success? && |q.value| == 1 ==> r == Success(Some(q.value[0]))
    ensures q.Success? && |q.value| == 0 ==> r == Success(None)
  {
    match q
    case Failure(m) => Failure(m)
    case NoCallback => NoCallback
    case Success(rows) =>
      if |rows| > 1 then Failure(DuplicateMessage(rows))
      else if |rows| == 1 then Success(Some(rows[0]))
      else Success(None)
  }

  /**
   * The calls `findById` as written makes to its callback: with more than
   * one row it reports the error and then, lacking a `return`, also reports
   * the first row as a success.
   */
  function FindByIdCallsAsWritten(q: Outcome<seq<Row>>): seq<Outcome<Option<Row>>> {
    match q
    case Failure(m) => [Failure(m)]
    case NoCallback => []
    case Success(rows) =>
      if |rows| > 1 then [Failure(DuplicateMessage(rows)), Success(Some(rows[0]))]
      else [FindByIdReply(q)]
  }

  /** Two rows with one id: the callback runs twice, the second time as a success. */
  lemma FindByIdCallsBackTwice(a: Row, b: Row)
    ensures |FindByIdCallsAsWritten(Success([a, b]))| == 2
    ensures FindByIdCallsAsWritten(Success([a, b]))[1] == Success(Some(a))
    ensures FindByIdReply(Success([a, b])).Failure?
  {
  }

  function FindByIdSpec(t: Tables, table: string, id: Value): Outcome<Option<Row>> {
    FindByIdReply(QuerySpec(t, Select(table, ColumnIs(IdColumn, id))))
  }

  /** `exist`: whether a row with that id is there (SELECT 1 ... WHERE id = ?). */
  function ExistSpec(t: Tables, id: Value, table: string): Result<bool> {
    match Read(t, Select(table, ColumnIs(IdColumn, id)))
    case Err(m) => Err(m)
    case Ok(rows) => Ok(|rows| > 0)
  }

  // ------------------------------------------------------- changing the store

  /** The store after an operation, the generator position, and what was reported. */
  datatype Step<T> = Step(tables: Tables, draws: nat, outcome: Outcome<T>)

  /** An INSERT of the row, as Write runs it. */
  function WriteRow(t: Tables, table: string, row: Row): Written {
    if table !in t then Written(t, Err(NoSuchTable(table))) else InsertRow(t, table, row)
  }

  /** An UPDATE ... SET assigns WHERE id = id, as Write runs it. */
  function WriteMerge(t: Tables, table: string, id: Value, assigns: Row): Written {
    if table !in t then Written(t, Err(NoSuchTable(table)))
    else if assigns == map[] then Written(t, Err("near \"WHERE\": syntax error"))
    else Written(t[table := MergeWhere(t[table], id, assigns)], Ok(CountWhere(t[table], IdColumn, id)))
  }

  /** How add and update report a statement: error, warning without callback, or the id. */
  function Reported<T>(res: Result<nat>, value: T): Outcome<T> {
    match res
    case Err(m) => Failure(m)
    case Ok(n) => if n == 0 then NoCallback else Success(value)
  }

  /** How remove reports its DELETE: error, warning without callback, or the rows affected. */
  function Affected(res: Result<nat>): Outcome<nat> {
    match res
    case Err(m) => Failure(m)
    case Ok(n) => if n == 0 then NoCallback else Success(n)
  }

  /** `add`: the obj's key if truthy, else a fresh guid; the row stored is the obj with that key. */
  function AddSpec(t: Tables, draws: nat, rng: nat -> Utils.Draw, pk: string, obj: Row, table: string): Step<Value> {
    var keyed := TruthyField(obj, pk);
    var id := if keyed then obj[pk] else Str(Utils.Guid(rng, draws));
    var w := WriteRow(t, table, obj[pk := id]);
    Step(w.tables, if keyed then draws else draws + 8, Reported(w.result, id))
  }

  /** `update`: every non-key field of the obj, on the rows whose id is the obj's key. */
  function UpdateSpec(t: Tables, draws: nat, pk: string, obj: Row, table: string): Step<Value> {
    var id := Bind(Field(obj, pk));
    var w := WriteMerge(t, table, id, obj - {pk});
    Step(w.tables, draws, Reported(w.result, id))
  }

  /** `remove`: the rows whose id is the obj's key. */
  function RemoveSpec(t: Tables, draws: nat, pk: string, obj: Row, table: string): Step<nat> {
    var w := Write(t, DeleteWhereId(table, Bind(Field(obj, pk))));
    Step(w.tables, draws, Affected(w.result))
  }

  /** `save`: add without a truthy key; else update if `exist` finds the row, add if not. */
  function SaveSpec(t: Tables, draws: nat, rng: nat -> Utils.Draw, pk: string, obj: Row, table: string): Step<Value> {
    if !TruthyField(obj, pk) then AddSpec(t, draws, rng, pk, obj, table)
    else match ExistSpec(t, obj[pk], table)
      case Err(m) => Step(t, draws, Failure(m))
      case Ok(found) =>
        if found then UpdateSpec(t, draws, pk, obj, table) else AddSpec(t, draws, rng, pk, obj, table)
  }

  // ------------------------------------------------------------- batchUpdate

  /** `data.tables` in key order: table name and its rows and tombstones. */
  type Delta = seq<(string, seq<Row>)>

  /** The argument of batchUpdate: `data`, with `data.tables` missing or present. */
  datatype BatchData = BatchData(tables: Option<Delta>)

  /** `Object.keys(obj).length === 1 && obj[pk]` */
  predicate IsDeletedObject(obj: Row, pk: string) {
    |obj.Keys| == 1 && TruthyField(obj, pk)
  }

  function EntryCount(delta: Delta): nat {
    if delta == [] then 0 else EntryCount(delta[..|delta| - 1]) + |delta[|delta| - 1].1|
  }

  function Tagged(name: string, rows: seq<Row>): seq<(string, Row)> {
    seq(|rows|, k requires 0 <= k < |rows| => (name, rows[k]))
  }

  /** The entries of a delta in the order batchUpdate visits them. */
  function Entries(delta: Delta): seq<(string, Row)> {
    if delta == [] then [] else Entries(delta[..|delta| - 1]) + Tagged(delta[|delta| - 1].0, delta[|delta| - 1].1)
  }

  /** Running, possibly after an entry that never called back; or stopped by the first error. */
  datatype Status = Running(silent: bool) | Stopped(message: string)

  datatype Progress = Progress(tables: Tables, draws: nat, status: Status)

  function Next<T>(silent: bool, o: Outcome<T>): Status {
    match o
    case Failure(m) => Stopped(m)
    case NoCallback => Running(true)
    case Success(_) => Running(silent)
  }

  /** One entry of the batch: a tombstone is removed, anything else is saved. */
  function ApplyEntry(p: Progress, rng: nat -> Utils.Draw, pk: string, e: (string, Row)): Progress {
    if p.status.Stopped? then p
    else if IsDeletedObject(e.1, pk) then
      var s := RemoveSpec(p.tables, p.draws, pk, e.1, e.0);
      Progress(s.tables, s.draws, Next(p.status.silent, s.outcome))
    else
      var s := SaveSpec(p.tables, p.draws, rng, pk, e.1, e.0);
      Progress(s.tables, s.draws, Next(p.status.silent, s.outcome))
  }

  function ApplyAll(p: Progress, rng: nat -> Utils.Draw, pk: string, es: seq<(string, Row)>): Progress {
    if es == [] then p else ApplyEntry(ApplyAll(p, rng, pk, es[..|es| - 1]), rng, pk, es[|es| - 1])
  }

  /** The answer of a batch whose entries have all been visited, given how many there were. */
  function Answer(status: Status, count: nat): Outcome<Option<nat>> {
    match status
    case Stopped(m) => Failure(m)
    case Running(_) => Success(Some(count))
  }

  /**
   * `batchUpdate`, with the completion counter it expects: null when there is
   * no `data.tables`, 0 when it holds no entry, otherwise every entry applied
   * in order and the number of entries as the answer; the first error ends the
   * batch. An entry whose statement affected no row counts as answered, as
   * the warnings on those paths intend (see BatchCountingCallbacks for the
   * code as written).
   */
  function BatchSpec(t: Tables, draws: nat, rng: nat -> Utils.Draw, pk: string, data: Option<BatchData>): (r: Step<Option<nat>>)
    ensures !r.outcome.NoCallback?
    ensures r.outcome.Success? ==>
              r.outcome.value == if data.None? || data.value.tables.None? then None else Some(EntryCount(data.value.tables.value))
  {
    if data.None? || data.value.tables.None? then Step(t, draws, Success(None))
    else
      var delta := data.value.tables.value;
      if EntryCount(delta) == 0 then Step(t, draws, Success(Some(0)))
      else
        var p := ApplyAll(Progress(t, draws, Running(false)), rng, pk, Entries(delta));
        Step(p.tables, p.draws, Answer(p.status, EntryCount(delta)))
  }

  /**
   * The same batch counted by callbacks, as the code is written: `remove`,
   * `update` and `add` only log a warning when no row was affected and never
   * call back, so the counter never reaches its count and the batch never
   * answers.
   */
  function BatchCountingCallbacks(t: Tables, draws: nat, rng: nat -> Utils.Draw, pk: string, data: Option<BatchData>): Step<Option<nat>> {
    var s := BatchSpec(t, draws, rng, pk, data);
    if data.None? || data.value.tables.None? || EntryCount(data.value.tables.value) == 0 then s
    else
      var p := ApplyAll(Progress(t, draws, Running(false)), rng, pk, Entries(data.value.tables.value));
      if p.status == Running(true) then Step(s.tables, s.draws, NoCallback) else s
  }

  /** How a call of batchUpdate ends as written: `counterCallback` is undefined, so calling it throws. */
  datatype BatchCall = ThrewBeforeApplying | BatchAnswered(outcome: Outcome<Option<nat>>)

  /**
   * `batchUpdate` as written: `counterCallback` is read from `utils`, which
   * does not define it, so any batch with an entry throws a TypeError at
   * `counterCallback(count, complete)`, before the first entry is applied.
   */
  function BatchAsWritten(data: Option<BatchData>): BatchCall {
    if data.None? || data.value.tables.None? then BatchAnswered(Success(None))
    else if EntryCount(data.value.tables.value) == 0 then BatchAnswered(Success(Some(0)))
    else ThrewBeforeApplying
  }

  /** The first loop of batchUpdate: the number of entries over all tables. */
  method CountEntries(delta: Delta) returns (count: nat)
    ensures count == EntryCount(delta)
  {
    count := 0;
    var i := 0;
    while i < |delta|
      invariant 0 <= i <= |delta|
      invariant count == EntryCount(delta[..i])
    {
      assert delta[..i + 1][..i] == delta[..i];
      count := count + |delta[i].1|;
      i := i + 1;
    }
    assert delta[..i] == delta;
  }

  lemma TaggedSnoc(name: string, rows: seq<Row>, j: nat)
    requires j < |rows|
    ensures Tagged(name, rows[..j + 1]) == Tagged(name, rows[..j]) + [(name, rows[j])]
  {
  }

  lemma EntriesSnoc(delta: Delta, i: nat)
    requires i < |delta|
    ensures Entries(delta[..i + 1]) == Entries(delta[..i]) + Tagged(delta[i].0, delta[i].1)
  {
    assert delta[..i + 1][..i] == delta[..i];
  }

  lemma ApplyAllSnoc(p: Progress, rng: nat -> Utils.Draw, pk: string, es: seq<(string, Row)>, e: (string, Row))
    ensures ApplyAll(p, rng, pk, es + [e]) == ApplyEntry(ApplyAll(p, rng, pk, es), rng, pk, e)
  {
    assert (es + [e])[..|es|] == es;
  }

  // ------------------------------------------------------------------ class

  /** A Database instance: its configurable key, its log flag, and the backend it talks to. */
  class Database {
    var primaryKey: string
    var logSQL: bool
    /** The backend's tables. */
    var tables: Tables
    /** How many random draws `guid` has taken so far. */
    var draws: nat
    /** The random generator behind `guid`, one draw per position. */
    const rng: nat -> Utils.Draw

    /** `initialize`: key `id`, query log as configured. */
    constructor (queryLogEnabled: bool, backend: Tables, rng: nat -> Utils.Draw)
      ensures primaryKey == DefaultPrimaryKey && logSQL == queryLogEnabled
      ensures tables == backend && draws == 0 && this.rng == rng
    {
      primaryKey := DefaultPrimaryKey;
      logSQL := queryLogEnabled;
      tables := backend;
      draws := 0;
      this.rng := rng;
    }

    method SetPrimaryKey(fieldName: string)
      modifies this`primaryKey
      ensures primaryKey == fieldName
    {
      primaryKey := fieldName;
    }

    method SetQueryLog(flag: bool)
      modifies this`logSQL
      ensures logSQL == flag
    {
      logSQL := flag;
    }

    /** `utils.guid()`, taking the next eight draws. */
    method NewGuid() returns (g: string)
      modifies this`draws
      ensures g == Utils.Guid(rng, old(draws)) && draws == old(draws) + 8
      ensures Utils.GuidFormat(g)
    {
      g := Utils.Guid(rng, draws);
      Utils.GuidHasFormat(rng, draws);
      draws := draws + 8;
    }

    /** `executeSQL` of a SELECT. */
    method ExecuteRead(q: Query) returns (r: Result<seq<Row>>)
      ensures r == Read(tables, q)
    {
      r := Read(tables, q);
    }

    /** `executeSQL` of an INSERT, UPDATE or DELETE. */
    method ExecuteWrite(c: Change) returns (r: Result<nat>)
      modifies this`tables
      ensures Written(tables, r) == Write(old(tables), c)
    {
      var w := Write(tables, c);
      tables := w.tables;
      r := w.result;
    }

    method Query(q: Query) returns (r: Outcome<seq<Row>>)
      ensures r == QuerySpec(tables, q)
    {
      var reply := ExecuteRead(q);
      match reply
      case Err(m) =>
        r := Failure(m);
      case Ok(rows) =>
        var stripped := DeleteNullFields(rows);
        DeletedNullsAgree(rows, stripped);
        r := Success(stripped);
    }

    /** `find(table, column + " = ?", [value], ...)` */
    method Find(table: string, column: string, value: Value) returns (r: Outcome<seq<Row>>)
      ensures r == QuerySpec(tables, Select(table, ColumnIs(column, value)))
    {
      r := Query(Select(table, ColumnIs(column, value)));
    }

    method FindAll(table: string) returns (r: Outcome<seq<Row>>)
      ensures r == QuerySpec(tables, Select(table, Everything))
    {
      r := Query(Select(table, Everything));
    }

    method FindById(table: string, id: Value) returns (r: Outcome<Option<Row>>)
      ensures r == FindByIdSpec(tables, table, id)
    {
      var rows := Query(Select(table, ColumnIs(IdColumn, id)));
      r := FindByIdReply(rows);
    }

    method Exist(id: Value, table: string) returns (r: Result<bool>)
      ensures r == ExistSpec(tables, id, table)
    {
      var reply := ExecuteRead(Select(table, ColumnIs(IdColumn, id)));
      match reply
      case Err(m) => r := Err(m);
      case Ok(rows) => r := Ok(|rows| > 0);
    }

    method Add(obj: Row, table: string) returns (r: Outcome<Value>)
      modifies this`tables, this`draws
      ensures Step(tables, draws, r) == AddSpec(old(tables), old(draws), rng, primaryKey, obj, table)
    {
      var id: Value;
      if TruthyField(obj, primaryKey) {
        id := obj[primaryKey];
      } else {
        var g := NewGuid();
        id := Str(g);
      }
      var columns, placeholders, values := BuildInsert(obj, primaryKey, id);
      InsertedRow(obj, primaryKey, id, columns, values);
      var res := ExecuteWrite(Insert(table, columns, values));
      r := Reported(res, id);
    }

    method Update(obj: Row, table: string) returns (r: Outcome<Value>)
      modifies this`tables
      ensures Step(tables, draws, r) == UpdateSpec(old(tables), draws, primaryKey, obj, table)
    {
      var sets, columns, values := BuildUpdate(obj, primaryKey);
      UpdatedFields(obj, primaryKey, columns, values[..|columns|]);
      var res := ExecuteWrite(UpdateWhereId(table, columns, values));
      r := Reported(res, Bind(Field(obj, primaryKey)));
    }

    method Remove(obj: Row, table: string) returns (r: Outcome<nat>)
      modifies this`tables
      ensures Step(tables, draws, r) == RemoveSpec(old(tables), draws, primaryKey, obj, table)
    {
      var res := ExecuteWrite(DeleteWhereId(table, Bind(Field(obj, primaryKey))));
      r := Affected(res);
    }

    method Save(obj: Row, table: string) returns (r: Outcome<Value>)
      modifies this`tables, this`draws
      ensures Step(tables, draws, r) == SaveSpec(old(tables), old(draws), rng, primaryKey, obj, table)
    {
      if !TruthyField(obj, primaryKey) {
        r := Add(obj, table);
        return;
      }
      var found := Exist(obj[primaryKey], table);
      match found
      case Err(m) =>
        r := Failure(m);
      case Ok(b) =>
        if b {
          r := Update(obj, table);
        } else {
          r := Add(obj, table);
        }
    }

    /** One entry of the batch: `remove` for a tombstone, `save` otherwise; skipped after an error. */
    method ApplyOne(status: Status, e: (string, Row)) returns (next: Status)
      modifies this`tables, this`draws
      ensures Progress(tables, draws, next) ==
              ApplyEntry(Progress(old(tables), old(draws), status), rng, primaryKey, e)
    {
      next := status;
      if status.Running? {
        if IsDeletedObject(e.1, primaryKey) {
          var o := Remove(e.1, e.0);
          next := Next(status.silent, o);
        } else {
          var o := Save(e.1, e.0);
          next := Next(status.silent, o);
        }
      }
    }

    /** The loops of batchUpdate, visiting every entry of every table in order. */
    method ApplyDelta(delta: Delta) returns (status: Status)
      modifies this`tables, this`draws
      ensures Progress(tables, draws, status) ==
              ApplyAll(Progress(old(tables), old(draws), Running(false)), rng, primaryKey, Entries(delta))
    {
      ghost var start := Progress(tables, draws, Running(false));
      status := Running(false);
      var i := 0;
      while i < |delta|
        invariant 0 <= i <= |delta|
        invariant ApplyAll(start, rng, primaryKey, Entries(delta[..i])) == Progress(tables, draws, status)
      {
        var name := delta[i].0;
        var rows := delta[i].1;
        ghost var before := Entries(delta[..i]);
        var j := 0;
        assert before + Tagged(name, rows[..j]) == before;
        while j < |rows|
          invariant 0 <= j <= |rows|
          invariant ApplyAll(start, rng, primaryKey, before + Tagged(name, rows[..j])) ==
                    Progress(tables, draws, status)
        {
          ghost var done := before + Tagged(name, rows[..j]);
          TaggedSnoc(name, rows, j);
          assert before + Tagged(name, rows[..j + 1]) == done + [(name, rows[j])];
          ApplyAllSnoc(start, rng, primaryKey, done, (name, rows[j]));
          status := ApplyOne(status, (name, rows[j]));
          j := j + 1;
        }
        assert rows[..j] == rows;
        EntriesSnoc(delta, i);
        i := i + 1;
      }
      assert delta[..i] == delta;
    }

    method BatchUpdate(data: Option<BatchData>) returns (r: Outcome<Option<nat>>)
      modifies this`tables, this`draws
      ensures Step(tables, draws, r) == BatchSpec(old(tables), old(draws), rng, primaryKey, data)
    {
      if data.None? || data.value.tables.None? {
        return Success(None);
      }
      var delta := data.value.tables.value;
      var count := CountEntries(delta);
      if count == 0 {
        return Success(Some(0));
      }
      var status := ApplyDelta(delta);
      r := Answer(status, count);
    }
  }

  // ------------------------------------------------------------------ lemmas

  /** A tombstone is an object whose only field is a truthy primary key. */
  lemma TombstoneShape(obj: Row, pk: string)
    ensures IsDeletedObject(obj, pk) <==> obj.Keys == {pk} && Truthy(obj[pk])
  {
    if IsDeletedObject(obj, pk) {
      var rest := obj.Keys - {pk};
      assert obj.Keys == rest + {pk};
      assert |rest| == 0;
    }
  }

  /** The first `save` without a truthy key is an `add`, whatever the store holds. */
  lemma SaveWithoutKeyAdds(t: Tables, draws: nat, rng: nat -> Utils.Draw, pk: string, obj: Row, table: string)
    requires !TruthyField(obj, pk)
    ensures SaveSpec(t, draws, rng, pk, obj, table) == AddSpec(t, draws, rng, pk, obj, table)
    ensures AddSpec(t, draws, rng, pk, obj, table).draws == draws + 8
  {
  }

  /**
   * A successful `add` stored one row, the object under its id, which
   * findById then returns; it fails exactly when that id is already taken.
   */
  lemma AddThenFind(t: Tables, draws: nat, rng: nat -> Utils.Draw, obj: Row, table: string)
    requires table in t
    ensures var s := AddSpec(t, draws, rng, IdColumn, obj, table);
            var id := if TruthyField(obj, IdColumn) then obj[IdColumn] else Str(Utils.Guid(rng, draws));
            && (s.outcome.Success? <==> CountWhere(t[table], IdColumn, id) == 0)
            && (s.outcome.Success? ==>
                  && s.outcome.value == id
                  && s.tables == t[table := t[table] + [obj[IdColumn := id]]]
                  && FindByIdSpec(s.tables, table, id) == Success(Some(WithoutNulls(obj[IdColumn := id]))))
            && (!s.outcome.Success? ==> s.tables == t)
  {
    var id := if TruthyField(obj, IdColumn) then obj[IdColumn] else Str(Utils.Guid(rng, draws));
    var row := obj[IdColumn := id];
    if CountWhere(t[table], IdColumn, id) == 0 {
      var w := ColumnIs(IdColumn, id);
      assert id != Null;
      FilterAppend(t[table], [row], w);
      assert [row][1..] == [];
      assert Filter([row], w) == [row];
    }
  }

  /** The store's table holds `x` after rows none of which carries `id`. */
  predicate LastWithId(t: Tables, table: string, rows: seq<Row>, x: Row, id: Value) {
    table in t && t[table] == rows + [x] && CountWhere(rows, IdColumn, id) == 0 && HasId(x, id)
  }

  lemma LoneMatch(rows: seq<Row>, x: Row, id: Value)
    requires CountWhere(rows, IdColumn, id) == 0 && HasId(x, id)
    ensures Filter(rows + [x], ColumnIs(IdColumn, id)) == [x]
  {
    FilterAppend(rows, [x], ColumnIs(IdColumn, id));
    assert [x][1..] == [];
  }

  lemma FindLone(t: Tables, table: string, rows: seq<Row>, x: Row, id: Value)
    requires LastWithId(t, table, rows, x, id)
    ensures FindByIdSpec(t, table, id) == Success(Some(WithoutNulls(x)))
  {
    LoneMatch(rows, x, id);
  }

  lemma UpdateLone(t: Tables, draws: nat, table: string, rows: seq<Row>, x: Row, id: Value, changes: Row)
    requires LastWithId(t, table, rows, x, id)
    requires IdColumn !in changes && changes != map[]
    ensures UpdateSpec(t, draws, IdColumn, changes[IdColumn := id], table) ==
            Step(t[table := rows + [x + changes]], draws, Success(id))
    ensures LastWithId(t[table := rows + [x + changes]], table, rows, x + changes, id)
  {
    assert changes[IdColumn := id] - {IdColumn} == changes;
    LoneMatch(rows, x, id);
    MergeAppend(rows, x, id, changes);
    MergeNoMatch(rows, id, changes);
    assert HasId(x + changes, id);
  }

  lemma RemoveLone(t: Tables, draws: nat, table: string, rows: seq<Row>, x: Row, id: Value)
    requires LastWithId(t, table, rows, x, id)
    ensures RemoveSpec(t, draws, IdColumn, map[IdColumn := id], table) == Step(t[table := rows], draws, Success(1))
    ensures FindByIdSpec(t[table := rows], table, id) == Success(None)
  {
    LoneMatch(rows, x, id);
    WithoutNoMatch(rows, id);
    WithoutAppend(rows, [x], id);
    assert [x][1..] == [];
    assert Without([x], id) == [];
    assert Without(rows + [x], id) == rows;
    assert Bind(Field(map[IdColumn := id], IdColumn)) == id;
    assert CountWhere(rows + [x], IdColumn, id) == 1;
    var w := ColumnIs(IdColumn, id);
    assert |Filter(rows, w)| == 0;
  }

  /**
   * Add, update, findById and remove on a fresh guid, the round the store's
   * own CRUD test walks: the update is found, and the delete puts the store
   * back as it was.
   */
  lemma CrudRoundTrip(t: Tables, draws: nat, rng: nat -> Utils.Draw, table: string, fields: Row, changes: Row)
    requires table in t
    requires IdColumn !in fields && IdColumn !in changes && changes != map[]
    requires CountWhere(t[table], IdColumn, Str(Utils.Guid(rng, draws))) == 0
    ensures var a := AddSpec(t, draws, rng, IdColumn, fields, table);
            var id := Str(Utils.Guid(rng, draws));
            var u := UpdateSpec(a.tables, a.draws, IdColumn, changes[IdColumn := id], table);
            var d := RemoveSpec(u.tables, u.draws, IdColumn, map[IdColumn := id], table);
            && a.outcome == Success(id)
            && u.outcome == Success(id)
            && FindByIdSpec(u.tables, table, id) == Success(Some(WithoutNulls(fields[IdColumn := id] + changes)))
            && d.outcome == Success(1)
            && FindByIdSpec(d.tables, table, id) == Success(None)
            && d.tables == t
  {
    var id := Str(Utils.Guid(rng, draws));
    var rows := t[table];
    var row := fields[IdColumn := id];
    var t1 := t[table := rows + [row]];
    AddFresh(t, draws, rng, fields, table);
    assert LastWithId(t1, table, rows, row, id);
    UpdateThenRemove(t1, draws + 8, table, rows, row, id, changes);
    assert t1[table := rows + [row + changes]][table := rows] == t;
  }

  /** `add` without a key, when the next guid is not yet an id of the table: one row appended under that guid. */
  lemma AddFresh(t: Tables, draws: nat, rng: nat -> Utils.Draw, fields: Row, table: string)
    requires table in t && IdColumn !in fields
    requires CountWhere(t[table], IdColumn, Str(Utils.Guid(rng, draws))) == 0
    ensures var g := Str(Utils.Guid(rng, draws));
            AddSpec(t, draws, rng, IdColumn, fields, table) ==
              Step(t[table := t[table] + [fields[IdColumn := g]]], draws + 8, Success(g))
            && HasId(fields[IdColumn := g], g)
  {
    Utils.GuidHasFormat(rng, draws);
  }

  /** The update and the delete of the round trip, on a table whose last row is the only one with `id`. */
  lemma UpdateThenRemove(t: Tables, draws: nat, table: string, rows: seq<Row>, row: Row, id: Value, changes: Row)
    requires LastWithId(t, table, rows, row, id)
    requires IdColumn !in changes && changes != map[]
    ensures var u := UpdateSpec(t, draws, IdColumn, changes[IdColumn := id], table);
            var d := RemoveSpec(u.tables, u.draws, IdColumn, map[IdColumn := id], table);
            && u == Step(t[table := rows + [row + changes]], draws, Success(id))
            && FindByIdSpec(u.tables, table, id) == Success(Some(WithoutNulls(row + changes)))
            && d == Step(t[table := rows + [row + changes]][table := rows], draws, Success(1))
            && FindByIdSpec(d.tables, table, id) == Success(None)
  {
    UpdateLone(t, draws, table, rows, row, id, changes);
    var t2 := t[table := rows + [row + changes]];
    FindLone(t2, table, rows, row + changes, id);
    RemoveLone(t2, draws, table, rows, row + changes, id);
  }

  /**
   * Saving the same keyed object, with a field besides its key, twice leaves
   * the store, the generator and the answer as one save did: a replayed
   * entry of a delta is harmless.
   */
  lemma ReplaySave(t: Tables, draws: nat, rng: nat -> Utils.Draw, obj: Row, table: string)
    requires TruthyField(obj, IdColumn) && obj - {IdColumn} != map[]
    ensures var s1 := SaveSpec(t, draws, rng, IdColumn, obj, table);
            var s2 := SaveSpec(s1.tables, s1.draws, rng, IdColumn, obj, table);
            s2 == s1 && s1.draws == draws
  {
    var id := obj[IdColumn];
    var m := obj - {IdColumn};
    if table in t {
      var rows := t[table];
      if CountWhere(rows, IdColumn, id) > 0 {
        MergeKeepsIds(rows, id, m, id);
        MergeIdempotent(rows, id, m);
        var t1 := t[table := MergeWhere(rows, id, m)];
        assert t1[table := MergeWhere(t1[table], id, m)] == t1;
      } else {
        assert obj[IdColumn := id] == obj;
        var t1 := t[table := rows + [obj]];
        assert LastWithId(t1, table, rows, obj, id);
        LoneMatch(rows, obj, id);
        assert ExistSpec(t1, id, table) == Ok(true);
        MergeAppend(rows, obj, id, m);
        MergeNoMatch(rows, id, m);
        assert obj + m == obj;
        assert t1[table := MergeWhere(t1[table], id, m)] == t1;
      }
    }
  }

  /**
   * `save` of a keyed object never leaves two rows with its id behind a
   * table that had at most one.
   */
  lemma SaveKeepsIdUnique(t: Tables, draws: nat, rng: nat -> Utils.Draw, obj: Row, table: string)
    requires TruthyField(obj, IdColumn) && table in t
    requires CountWhere(t[table], IdColumn, obj[IdColumn]) <= 1
    ensures var s := SaveSpec(t, draws, rng, IdColumn, obj, table);
            CountWhere(s.tables[table], IdColumn, obj[IdColumn]) ==
              if s.outcome.Success? then 1 else CountWhere(t[table], IdColumn, obj[IdColumn])
  {
    var id := obj[IdColumn];
    var rows := t[table];
    var m := obj - {IdColumn};
    if CountWhere(rows, IdColumn, id) > 0 {
      if m != map[] {
        MergeKeepsIds(rows, id, m, id);
      }
    } else {
      assert obj[IdColumn := id] == obj;
      FilterAppend(rows, [obj], ColumnIs(IdColumn, id));
      assert [obj][1..] == [];
    }
  }

  /**
   * A replayed `remove` finds nothing to delete: the store stays as the
   * first delete left it and the callback is never called.
   */
  lemma ReplayRemove(t: Tables, draws: nat, pk: string, obj: Row, table: string)
    requires table in t
    ensures var s1 := RemoveSpec(t, draws, pk, obj, table);
            var s2 := RemoveSpec(s1.tables, s1.draws, pk, obj, table);
            s2.tables == s1.tables && s2.outcome == NoCallback
  {
    var id := Bind(Field(obj, pk));
    WithoutLeavesNone(t[table], id);
    WithoutNoMatch(Without(t[table], id), id);
  }

  /** After the first error of a batch no later entry is applied. */
  lemma {:induction false} StoppedBatchStaysPut(p: Progress, rng: nat -> Utils.Draw, pk: string, es: seq<(string, Row)>)
    requires p.status.Stopped?
    ensures ApplyAll(p, rng, pk, es) == p
  {
    if es != [] {
      StoppedBatchStaysPut(p, rng, pk, es[..|es| - 1]);
    }
  }

  /** No `data.tables`: null; no entry at all: 0; the store is untouched either way. */
  lemma BatchEdgeCases(t: Tables, draws: nat, rng: nat -> Utils.Draw, pk: string, data: Option<BatchData>)
    ensures data.None? || data.value.tables.None? ==> BatchSpec(t, draws, rng, pk, data) == Step(t, draws, Success(None))
    ensures data.Some? && data.value.tables.Some? && (forall i :: 0 <= i < |data.value.tables.value| ==> data.value.tables.value[i].1 == []) ==>
              BatchSpec(t, draws, rng, pk, data) == Step(t, draws, Success(Some(0)))
  {
    if data.Some? && data.value.tables.Some? {
      NoRowsNoEntries(data.value.tables.value);
    }
  }

  lemma {:induction false} NoRowsNoEntries(delta: Delta)
    ensures (forall i :: 0 <= i < |delta| ==> delta[i].1 == []) ==> EntryCount(delta) == 0
  {
    if delta != [] {
      NoRowsNoEntries(delta[..|delta| - 1]);
    }
  }

  /**
   * A delta holding one tombstone, applied twice. Counted by callbacks, as
   * written, the second batch deletes nothing and never answers; the batch
   * that counts a zero-row delete as answered reports its one entry.
   */
  lemma ReplayedTombstoneBatch(t: Tables, draws: nat, rng: nat -> Utils.Draw, pk: string, table: string, obj: Row)
    requires table in t && IsDeletedObject(obj, pk)
    ensures var data := Some(BatchData(Some([(table, [obj])])));
            var b1 := BatchSpec(t, draws, rng, pk, data);
            var c2 := BatchCountingCallbacks(b1.tables, b1.draws, rng, pk, data);
            var b2 := BatchSpec(b1.tables, b1.draws, rng, pk, data);
            c2.tables == b1.tables && c2.outcome == NoCallback &&
            b2.tables == b1.tables && b2.outcome == Success(Some(1))
  {
    var delta := [(table, [obj])];
    var e := (table, obj);
    assert delta[..0] == [];
    assert EntryCount(delta) == 1;
    assert Tagged(table, [obj]) == [e];
    assert Entries(delta) == [e];
    assert [] + [e] == [e];
    var p1 := Progress(t, draws, Running(false));
    ApplyAllSnoc(p1, rng, pk, [], e);
    var r1 := RemoveSpec(t, draws, pk, obj, table);
    assert !r1.outcome.Failure?;
    var p2 := Progress(r1.tables, r1.draws, Running(false));
    ApplyAllSnoc(p2, rng, pk, [], e);
    ReplayRemove(t, draws, pk, obj, table);
  }

  /**
   * As written, any batch with an entry throws before applying it; the
   * batch as intended answers with the count of entries or the first error.
   * Without entries the two agree and leave the store alone.
   */
  lemma BatchThrowsBeforeApplying(t: Tables, draws: nat, rng: nat -> Utils.Draw, pk: string, data: Option<BatchData>)
    ensures BatchAsWritten(data) == ThrewBeforeApplying <==>
            data.Some? && data.value.tables.Some? && EntryCount(data.value.tables.value) > 0
    ensures BatchAsWritten(data).BatchAnswered? ==>
              BatchSpec(t, draws, rng, pk, data) == Step(t, draws, BatchAsWritten(data).outcome)
    ensures BatchAsWritten(data) == ThrewBeforeApplying ==>
              var b := BatchSpec(t, draws, rng, pk, data);
              b.outcome == Success(Some(EntryCount(data.value.tables.value))) || b.outcome.Failure?
  {
  }

  // ------------------------------------------------- replaying a whole delta

  /** The id an entry carries, or null. */
  function IdOf(e: (string, Row)): Value {
    Bind(Field(e.1, IdColumn))
  }

  /**
   * A delta that can be replayed: under the key `id`, every entry carries a
   * truthy id, and no two entries of one table carry the same id.
   */
  predicate Replayable(es: seq<(string, Row)>) {
    (forall i :: 0 <= i < |es| ==> TruthyField(es[i].1, IdColumn)) &&
    (forall i, j :: 0 <= i < j < |es| && es[i].0 == es[j].0 ==> IdOf(es[i]) != IdOf(es[j]))
  }

  /**
   * What an applied entry leaves in the store: no row with a tombstone's id,
   * and, for a saved object, a row with its id and every such row already
   * holding the object's other fields.
   */
  predicate Applied(t: Tables, e: (string, Row)) {
    e.0 in t &&
    if IsDeletedObject(e.1, IdColumn) then
      forall x :: x in t[e.0] ==> !HasId(x, IdOf(e))
    else
      (exists x :: x in t[e.0] && HasId(x, IdOf(e))) &&
      (forall x :: x in t[e.0] && HasId(x, IdOf(e)) ==> x + (e.1 - {IdColumn}) == x)
  }

  /** Entry `j` is applied, unless an entry up to it names a missing table and the batch stopped there. */
  predicate Settled(t: Tables, es: seq<(string, Row)>, j: nat)
    requires j < |es|
  {
    Applied(t, es[j]) || exists i :: 0 <= i <= j && es[i].0 !in t
  }

  /** The error that stops a batch over tables `names`: the first entry whose table is missing. */
  function StopMessage(names: set<string>, es: seq<(string, Row)>): Option<string> {
    if es == [] then None
    else
      var m := StopMessage(names, es[..|es| - 1]);
      if m.Some? then m
      else if es[|es| - 1].0 !in names then Some(NoSuchTable(es[|es| - 1].0))
      else None
  }

  lemma {:induction false} NoStopMeansPresent(names: set<string>, es: seq<(string, Row)>)
    ensures StopMessage(names, es).None? <==> forall i :: 0 <= i < |es| ==> es[i].0 in names
  {
    if es != [] {
      var init := es[..|es| - 1];
      NoStopMeansPresent(names, init);
      assert forall i :: 0 <= i < |init| ==> init[i] == es[i];
    }
  }

  /** A saved object with a truthy key is no tombstone only if it has another field. */
  lemma SavedHasFields(obj: Row, pk: string)
    requires TruthyField(obj, pk) && !IsDeletedObject(obj, pk)
    ensures obj - {pk} != map[]
  {
    assert obj.Keys != {pk};
    var k :| k in obj && k != pk;
    assert k in obj - {pk};
  }

  /** An entry whose table is missing stops the batch with that table's error and changes nothing. */
  lemma EntryOnMissingTable(p: Progress, rng: nat -> Utils.Draw, e: (string, Row))
    requires p.status.Running? && TruthyField(e.1, IdColumn) && e.0 !in p.tables
    ensures ApplyEntry(p, rng, IdColumn, e) == Progress(p.tables, p.draws, Stopped(NoSuchTable(e.0)))
  {
  }

  /** The rows `save` leaves for a keyed object: its fields merged into the rows with its id, or the object appended. */
  function SavedRows(rows: seq<Row>, obj: Row): seq<Row>
    requires IdColumn in obj
  {
    var id := obj[IdColumn];
    if CountWhere(rows, IdColumn, id) > 0 then MergeWhere(rows, id, obj - {IdColumn}) else rows + [obj]
  }

  lemma TombstoneStep(p: Progress, rng: nat -> Utils.Draw, e: (string, Row))
    requires p.status.Running? && IsDeletedObject(e.1, IdColumn) && e.0 in p.tables
    ensures var q := ApplyEntry(p, rng, IdColumn, e);
            q.status.Running? && q.draws == p.draws && q.tables == p.tables[e.0 := Without(p.tables[e.0], IdOf(e))]
  {
  }

  lemma SaveStep(p: Progress, rng: nat -> Utils.Draw, e: (string, Row))
    requires p.status.Running? && TruthyField(e.1, IdColumn) && !IsDeletedObject(e.1, IdColumn) && e.0 in p.tables
    ensures var q := ApplyEntry(p, rng, IdColumn, e);
            q.status.Running? && q.draws == p.draws && q.tables == p.tables[e.0 := SavedRows(p.tables[e.0], e.1)]
  {
    SavedHasFields(e.1, IdColumn);
    assert e.1[IdColumn := e.1[IdColumn]] == e.1;
  }

  /** After an UPDATE of the rows with `id`, such a row is there. */
  lemma MergedRowsKeepId(rows: seq<Row>, id: Value, m: Row)
    requires CountWhere(rows, IdColumn, id) > 0 && IdColumn !in m
    ensures exists x :: x in MergeWhere(rows, id, m) && HasId(x, id)
  {
    var w := ColumnIs(IdColumn, id);
    FilterMembers(rows, w);
    var merged := MergeWhere(rows, id, m);
    assert Filter(rows, w)[0] in Filter(rows, w);
    var k :| 0 <= k < |rows| && rows[k] == Filter(rows, w)[0];
    assert merged[k] == rows[k] + m && HasId(merged[k], id);
    assert merged[k] in merged;
  }

  /** After an UPDATE of the rows with `id`, each such row holds the assigned fields. */
  lemma MergedRowsHoldFields(rows: seq<Row>, id: Value, m: Row)
    requires IdColumn !in m
    ensures forall x :: x in MergeWhere(rows, id, m) && HasId(x, id) ==> x + m == x
  {
    var merged := MergeWhere(rows, id, m);
    forall x | x in merged && HasId(x, id) ensures x + m == x {
      var i :| 0 <= i < |merged| && merged[i] == x;
      if HasId(rows[i], id) {
        AssignedAgain(rows[i], m);
      }
    }
  }

  /** Assigning the same fields twice is assigning them once. */
  lemma AssignedAgain(x: Row, m: Row)
    ensures (x + m) + m == x + m
  {
    assert ((x + m) + m).Keys == (x + m).Keys;
  }

  /** After an INSERT of `obj` into rows without its id, `obj` is the only row with that id. */
  lemma AppendedRowApplied(rows: seq<Row>, obj: Row, id: Value)
    requires CountWhere(rows, IdColumn, id) == 0 && HasId(obj, id)
    ensures forall x :: x in rows + [obj] && HasId(x, id) ==> x == obj
  {
    FilterMembers(rows, ColumnIs(IdColumn, id));
  }

  /** After `save` of a keyed object, a row carries its id, and every such row holds its other fields. */
  lemma SavedRowsApplied(rows: seq<Row>, obj: Row)
    requires TruthyField(obj, IdColumn)
    ensures var id := obj[IdColumn];
            (exists x :: x in SavedRows(rows, obj) && HasId(x, id)) &&
            (forall x :: x in SavedRows(rows, obj) && HasId(x, id) ==> x + (obj - {IdColumn}) == x)
  {
    var id := obj[IdColumn];
    var m := obj - {IdColumn};
    if CountWhere(rows, IdColumn, id) > 0 {
      MergedRowsKeepId(rows, id, m);
      MergedRowsHoldFields(rows, id, m);
    } else {
      assert HasId(obj, id);
      AppendedRowApplied(rows, obj, id);
      assert obj + m == obj;
      assert obj in rows + [obj];
    }
  }

  /** An entry on a present table keeps the batch running, touches only its table, and is then applied. */
  lemma EntryEstablishes(p: Progress, rng: nat -> Utils.Draw, e: (string, Row))
    requires p.status.Running? && TruthyField(e.1, IdColumn) && e.0 in p.tables
    ensures var q := ApplyEntry(p, rng, IdColumn, e);
            q.status.Running? && q.draws == p.draws && Applied(q.tables, e) &&
            q.tables == p.tables[e.0 := q.tables[e.0]]
  {
    if IsDeletedObject(e.1, IdColumn) {
      TombstoneStep(p, rng, e);
    } else {
      SaveStep(p, rng, e);
      SavedRowsApplied(p.tables[e.0], e.1);
    }
  }

  /** An applied entry, applied again, changes nothing and keeps the batch running. */
  lemma EntryReplays(p: Progress, rng: nat -> Utils.Draw, e: (string, Row))
    requires p.status.Running? && TruthyField(e.1, IdColumn) && Applied(p.tables, e)
    ensures var q := ApplyEntry(p, rng, IdColumn, e);
            q.status.Running? && q.tables == p.tables && q.draws == p.draws
  {
    var rows := p.tables[e.0];
    if IsDeletedObject(e.1, IdColumn) {
      TombstoneStep(p, rng, e);
      DeleteFindsNothing(rows, IdOf(e));
      assert p.tables[e.0 := rows] == p.tables;
    } else {
      SaveStep(p, rng, e);
      SavedHasFields(e.1, IdColumn);
      UpdateRewritesNothing(rows, IdOf(e), e.1 - {IdColumn});
      assert p.tables[e.0 := rows] == p.tables;
    }
  }

  /** DELETE of an id no row carries leaves the rows as they are. */
  lemma DeleteFindsNothing(rows: seq<Row>, id: Value)
    requires forall x :: x in rows ==> !HasId(x, id)
    ensures Without(rows, id) == rows
  {
    var w := ColumnIs(IdColumn, id);
    FilterMembers(rows, w);
    FilterEmpty(rows, w);
    WithoutNoMatch(rows, id);
  }

  /** UPDATE of rows that already hold the assigned fields finds them and leaves them as they are. */
  lemma UpdateRewritesNothing(rows: seq<Row>, id: Value, m: Row)
    requires exists x :: x in rows && HasId(x, id)
    requires forall x :: x in rows && HasId(x, id) ==> x + m == x
    ensures CountWhere(rows, IdColumn, id) > 0 && MergeWhere(rows, id, m) == rows
  {
    var w := ColumnIs(IdColumn, id);
    FilterMembers(rows, w);
    var x :| x in rows && HasId(x, id);
    assert x in Filter(rows, w);
    var merged := MergeWhere(rows, id, m);
    forall i | 0 <= i < |rows| ensures merged[i] == rows[i] {
      if HasId(rows[i], id) {
        assert rows[i] in rows;
      }
    }
  }

  /** An applied entry stays applied when an entry of another table, or with another id, follows it. */
  lemma EntryPreserves(p: Progress, rng: nat -> Utils.Draw, e: (string, Row), f: (string, Row))
    requires p.status.Running? && TruthyField(e.1, IdColumn) && TruthyField(f.1, IdColumn)
    requires f.0 in p.tables && Applied(p.tables, e)
    requires e.0 == f.0 ==> IdOf(e) != IdOf(f)
    ensures Applied(ApplyEntry(p, rng, IdColumn, f).tables, e)
  {
    EntryEstablishes(p, rng, f);
    if e.0 == f.0 {
      var after := ApplyEntry(p, rng, IdColumn, f).tables[f.0];
      var rows := p.tables[f.0];
      var ide, idf := IdOf(e), IdOf(f);
      if IsDeletedObject(f.1, IdColumn) {
        TombstoneStep(p, rng, f);
        DeleteKeepsOtherIds(rows, idf, ide);
      } else {
        SaveStep(p, rng, f);
        SavedHasFields(f.1, IdColumn);
        if CountWhere(rows, IdColumn, idf) > 0 {
          UpdateKeepsOtherIds(rows, idf, f.1 - {IdColumn}, ide);
        } else {
          assert after == rows + [f.1];
        }
      }
      assert forall x :: x in after && HasId(x, ide) <==> x in rows && HasId(x, ide);
    }
  }

  /** DELETE of one id keeps exactly the rows carrying a different id. */
  lemma DeleteKeepsOtherIds(rows: seq<Row>, id: Value, other: Value)
    requires id != other
    ensures forall x :: x in Without(rows, id) && HasId(x, other) <==> x in rows && HasId(x, other)
  {
  }

  /** UPDATE of one id keeps exactly the rows carrying a different id. */
  lemma UpdateKeepsOtherIds(rows: seq<Row>, id: Value, m: Row, other: Value)
    requires id != other && IdColumn !in m
    ensures forall x :: x in MergeWhere(rows, id, m) && HasId(x, other) <==> x in rows && HasId(x, other)
  {
    var merged := MergeWhere(rows, id, m);
    forall x | x in merged && HasId(x, other) ensures x in rows {
      var i :| 0 <= i < |merged| && merged[i] == x;
      assert IdColumn in rows[i] && rows[i][IdColumn] == x[IdColumn];
      assert !HasId(rows[i], id);
    }
    forall x | x in rows && HasId(x, other) ensures x in merged {
      var i :| 0 <= i < |rows| && rows[i] == x;
      assert merged[i] == x;
    }
  }

  /**
   * Any run over entries with truthy ids draws no guid, keeps the set of
   * tables, and stops exactly at the first entry naming a missing table.
   */
  lemma {:induction false} RunShape(p: Progress, rng: nat -> Utils.Draw, es: seq<(string, Row)>)
    requires p.status.Running? && forall i :: 0 <= i < |es| ==> TruthyField(es[i].1, IdColumn)
    ensures var q := ApplyAll(p, rng, IdColumn, es);
            q.draws == p.draws && q.tables.Keys == p.tables.Keys &&
            (q.status.Stopped? <==> StopMessage(p.tables.Keys, es).Some?) &&
            (q.status.Stopped? ==> q.status.message == StopMessage(p.tables.Keys, es).value)
  {
    if es != [] {
      var n := |es| - 1;
      var init, e := es[..n], es[n];
      assert es == init + [e];
      RunShape(p, rng, init);
      ApplyAllSnoc(p, rng, IdColumn, init, e);
      var q0 := ApplyAll(p, rng, IdColumn, init);
      if q0.status.Running? {
        if e.0 !in q0.tables {
          EntryOnMissingTable(q0, rng, e);
        } else {
          EntryEstablishes(q0, rng, e);
        }
      }
    }
  }

  /** Whether an entry is settled depends only on the entries up to it. */
  lemma SettledInPrefix(t: Tables, es: seq<(string, Row)>, n: nat, j: nat)
    requires j < n <= |es|
    ensures Settled(t, es[..n], j) <==> Settled(t, es, j)
  {
    assert forall i :: 0 <= i <= j ==> es[..n][i] == es[i];
  }

  /** Once an entry up to the last names a missing table, every entry is settled. */
  lemma SettledAfterStop(t: Tables, es: seq<(string, Row)>, init: seq<(string, Row)>, i: nat)
    requires i < |es| && es[i].0 !in t && init == es[..|es| - 1]
    requires forall j :: 0 <= j < |init| ==> Settled(t, init, j)
    ensures forall j :: 0 <= j < |es| ==> Settled(t, es, j)
  {
    forall j | 0 <= j < |es| ensures Settled(t, es, j) {
      if j < |es| - 1 {
        SettledInPrefix(t, es, |es| - 1, j);
      }
    }
  }

  /** The first application of a replayable delta leaves every entry settled. */
  lemma {:induction false} FirstRun(p: Progress, rng: nat -> Utils.Draw, es: seq<(string, Row)>)
    requires p.status.Running? && Replayable(es)
    ensures var q := ApplyAll(p, rng, IdColumn, es);
            forall j :: 0 <= j < |es| ==> Settled(q.tables, es, j)
  {
    if es != [] {
      var n := |es| - 1;
      var init, e := es[..n], es[n];
      assert es == init + [e];
      assert Replayable(init) by {
        assert forall i :: 0 <= i < n ==> init[i] == es[i];
      }
      FirstRun(p, rng, init);
      RunShape(p, rng, init);
      ApplyAllSnoc(p, rng, IdColumn, init, e);
      var q0 := ApplyAll(p, rng, IdColumn, init);
      NoStopMeansPresent(p.tables.Keys, init);
      if q0.status.Stopped? {
        var i :| 0 <= i < n && init[i].0 !in p.tables.Keys;
        SettledAfterStop(q0.tables, es, init, i);
      } else if e.0 !in q0.tables {
        EntryOnMissingTable(q0, rng, e);
        SettledAfterStop(q0.tables, es, init, n);
      } else {
        EntryEstablishes(q0, rng, e);
        var q := ApplyEntry(q0, rng, IdColumn, e);
        forall j | 0 <= j < |es| ensures Settled(q.tables, es, j) {
          if j < n {
            SettledInPrefix(q0.tables, es, n, j);
            assert Applied(q0.tables, es[j]) by {
              forall i | 0 <= i <= j ensures es[i].0 in q0.tables {
                assert init[i] == es[i];
              }
            }
            EntryPreserves(q0, rng, es[j], e);
          }
        }
      }
    }
  }

  /**
   * Replaying a delta whose entries are all settled: no entry changes the
   * store or draws a guid, and the replay stops exactly where the first
   * application did.
   */
  lemma {:induction false} Replay(p: Progress, rng: nat -> Utils.Draw, es: seq<(string, Row)>)
    requires p.status.Running? && Replayable(es)
    requires forall j :: 0 <= j < |es| ==> Settled(p.tables, es, j)
    ensures var q := ApplyAll(p, rng, IdColumn, es);
            q.tables == p.tables && q.draws == p.draws &&
            (q.status.Stopped? <==> StopMessage(p.tables.Keys, es).Some?) &&
            (q.status.Stopped? ==> q.status.message == StopMessage(p.tables.Keys, es).value)
  {
    if es != [] {
      var n := |es| - 1;
      var init, e := es[..n], es[n];
      assert es == init + [e];
      assert forall i :: 0 <= i < n ==> init[i] == es[i];
      forall j | 0 <= j < n ensures Settled(p.tables, init, j) {
        assert Settled(p.tables, es, j);
      }
      Replay(p, rng, init);
      ApplyAllSnoc(p, rng, IdColumn, init, e);
      var q0 := ApplyAll(p, rng, IdColumn, init);
      if q0.status.Running? {
        NoStopMeansPresent(p.tables.Keys, init);
        if e.0 !in q0.tables {
          EntryOnMissingTable(q0, rng, e);
        } else {
          assert Settled(p.tables, es, n);
          assert Applied(p.tables, e) by {
            forall i | 0 <= i <= n ensures es[i].0 in p.tables {
              if i < n {
                assert init[i].0 in p.tables.Keys;
              }
            }
          }
          EntryReplays(q0, rng, e);
        }
      }
    }
  }

  /**
   * Applying a replayable delta twice leaves the store, the generator and
   * the answer exactly as applying it once: re-saved rows are already
   * current and re-deleted tombstones find nothing to delete.
   */
  lemma BatchReplay(t: Tables, draws: nat, rng: nat -> Utils.Draw, data: Option<BatchData>)
    requires data.Some? && data.value.tables.Some? ==> Replayable(Entries(data.value.tables.value))
    ensures var b1 := BatchSpec(t, draws, rng, IdColumn, data);
            BatchSpec(b1.tables, b1.draws, rng, IdColumn, data) == b1 && b1.draws == draws
  {
    if data.Some? && data.value.tables.Some? && EntryCount(data.value.tables.value) > 0 {
      var es := Entries(data.value.tables.value);
      var p1 := Progress(t, draws, Running(false));
      RunShape(p1, rng, es);
      FirstRun(p1, rng, es);
      var q1 := ApplyAll(p1, rng, IdColumn, es);
      var p2 := Progress(q1.tables, q1.draws, Running(false));
      Replay(p2, rng, es);
    }
  }
}
