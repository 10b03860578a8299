/**
 * The relational backend behind `executeSQL`, reduced to an in-memory
 * interpreter of exactly the statements the store issues: SELECT with an
 * equality, a timestamp bound or no WHERE clause, INSERT of a row, UPDATE
 * and DELETE keyed by the `id` column. A table keeps its rows in storage
 * order; `WHERE c = ?` follows SQL NULL semantics, and a table refuses a
 * second row with the same `id` as its PRIMARY KEY would.
 */
module Sql {
  import opened Values

  type Table = seq<Row>
  type Tables = map<string, Table>

  /** The column that the statements of findById, exist, remove and update name literally. */
  const IdColumn := "id"
  const TimestampColumn := "timestamp"

  /** `a = b` in SQL: NULL equals nothing. */
  predicate SqlEquals(a: Value, b: Value) {
    a != Null && b != Null && a == b
  }

  datatype Where =
    | ColumnIs(column: string, value: Value)  // WHERE column = ?
    | Everything                              // no WHERE clause
    | TimestampAfter(start: int)              // WHERE timestamp > ? ORDER BY timestamp

  predicate Matches(row: Row, w: Where) {
    match w
    case ColumnIs(c, v) => c in row && SqlEquals(row[c], v)
    case Everything => true
    case TimestampAfter(t) =>
      TimestampColumn in row && row[TimestampColumn].Int? && row[TimestampColumn].i > t
  }

  predicate HasId(row: Row, id: Value) {
    Matches(row, ColumnIs(IdColumn, id))
  }

  /** The rows that satisfy `w`, in storage order. */
  function Filter(rows: seq<Row>, w: Where): (r: seq<Row>)
    ensures |r| <= |rows|
  {
    if rows == [] then []
    else (if Matches(rows[0], w) then [rows[0]] else []) + Filter(rows[1..], w)
  }

  /** Filter keeps each matching row as often as it occurs, and drops the others. */
  lemma {:induction false} FilterMultiset(rows: seq<Row>, w: Where)
    ensures forall x :: multiset(Filter(rows, w))[x] == if Matches(x, w) then multiset(rows)[x] else 0
  {
    if rows != [] {
      assert rows == [rows[0]] + rows[1..];
      FilterMultiset(rows[1..], w);
    }
  }

  lemma FilterMembers(rows: seq<Row>, w: Where)
    ensures forall x :: x in Filter(rows, w) <==> x in rows && Matches(x, w)
  {
    FilterMultiset(rows, w);
    forall x ensures x in Filter(rows, w) <==> x in rows && Matches(x, w) {
      assert x in Filter(rows, w) <==> multiset(Filter(rows, w))[x] > 0;
      assert x in rows <==> multiset(rows)[x] > 0;
    }
  }

  /** How many rows have `column = value`. */
  function CountWhere(rows: seq<Row>, column: string, value: Value): nat {
    |Filter(rows, ColumnIs(column, value))|
  }

  function Ts(row: Row): int {
    if TimestampColumn in row && row[TimestampColumn].Int? then row[TimestampColumn].i else 0
  }

  predicate SortedByTs(rows: seq<Row>) {
    forall i, j :: 0 <= i < j < |rows| ==> Ts(rows[i]) <= Ts(rows[j])
  }

  function InsertByTs(x: Row, rows: seq<Row>): (r: seq<Row>)
    ensures |r| == |rows| + 1
  {
    if rows == [] then [x]
    else if Ts(x) <= Ts(rows[0]) then [x] + rows
    else [rows[0]] + InsertByTs(x, rows[1..])
  }

  lemma {:induction false} InsertByTsSorted(x: Row, rows: seq<Row>)
    requires SortedByTs(rows)
    ensures SortedByTs(InsertByTs(x, rows))
    ensures InsertByTs(x, rows)[0] == x || (rows != [] && InsertByTs(x, rows)[0] == rows[0])
  {
    if rows != [] && Ts(x) > Ts(rows[0]) {
      var rest := InsertByTs(x, rows[1..]);
      InsertByTsSorted(x, rows[1..]);
      assert Ts(rows[0]) <= Ts(rest[0]);
      assert forall j :: 0 <= j < |rest| ==> Ts(rows[0]) <= Ts(rest[j]);
      SortedCons(rows[0], rest);
    }
  }

  /** A row no later than every row of a sorted sequence can go in front of it. */
  lemma SortedCons(h: Row, rest: seq<Row>)
    requires SortedByTs(rest)
    requires forall j :: 0 <= j < |rest| ==> Ts(h) <= Ts(rest[j])
    ensures SortedByTs([h] + rest)
  {
    var r := [h] + rest;
    forall i, j | 0 <= i < j < |r| ensures Ts(r[i]) <= Ts(r[j]) {
      assert r[j] == rest[j - 1];
      if i > 0 { assert r[i] == rest[i - 1]; }
    }
  }

  lemma {:induction false} InsertByTsMultiset(x: Row, rows: seq<Row>)
    ensures multiset(InsertByTs(x, rows)) == multiset(rows) + multiset{x}
  {
    if rows != [] && Ts(x) > Ts(rows[0]) {
      assert rows == [rows[0]] + rows[1..];
      InsertByTsMultiset(x, rows[1..]);
    }
  }

  /** ORDER BY timestamp: a stable insertion sort. */
  function SortByTs(rows: seq<Row>): (r: seq<Row>)
    ensures |r| == |rows|
  {
    if rows == [] then [] else InsertByTs(rows[0], SortByTs(rows[1..]))
  }

  /** The sort orders its rows by timestamp and neither adds nor drops one. */
  lemma {:induction false} SortByTsFacts(rows: seq<Row>)
    ensures SortedByTs(SortByTs(rows))
    ensures multiset(SortByTs(rows)) == multiset(rows)
  {
    if rows != [] {
      assert rows == [rows[0]] + rows[1..];
      SortByTsFacts(rows[1..]);
      InsertByTsSorted(rows[0], SortByTs(rows[1..]));
      InsertByTsMultiset(rows[0], SortByTs(rows[1..]));
    }
  }

  datatype Query = Select(table: string, where: Where)

  function NoSuchTable(table: string): string {
    "no such table: " + table
  }

  /** A SELECT: the matching rows, ordered by timestamp when the query says so. */
  function Read(t: Tables, q: Query): Result<seq<Row>> {
    if q.table !in t then Err(NoSuchTable(q.table))
    else if q.where.TimestampAfter? then Ok(SortByTs(Filter(t[q.table], q.where)))
    else Ok(Filter(t[q.table], q.where))
  }

  datatype Change =
    | Insert(table: string, columns: seq<string>, values: seq<Value>)
      // INSERT INTO table (columns) VALUES (?, ...) bound to values
    | UpdateWhereId(table: string, columns: seq<string>, values: seq<Value>)
      // UPDATE table SET c1 = ?, ... WHERE id = ?; values ends with the id
    | DeleteWhereId(table: string, id: Value)
      // DELETE FROM table WHERE id = ?

  /** Tables after a statement and what it reports: rows affected, or an error. */
  datatype Written = Written(tables: Tables, result: Result<nat>)

  /** The row that binding `values` to `columns` describes. */
  function Zip(columns: seq<string>, values: seq<Value>): (r: Row)
    requires |columns| == |values|
    ensures r.Keys == set c | c in columns
  {
    if columns == [] then map[]
    else Zip(columns[1..], values[1..])[columns[0] := values[0]]
  }

  function InsertRow(t: Tables, table: string, row: Row): Written
    requires table in t
  {
    if IdColumn in row && CountWhere(t[table], IdColumn, row[IdColumn]) > 0 then
      Written(t, Err("UNIQUE constraint failed: " + table + "." + IdColumn))
    else
      Written(t[table := t[table] + [row]], Ok(1))
  }

  /** Every row whose id is `id`, with the columns of `assigns` overwritten. */
  function MergeWhere(rows: seq<Row>, id: Value, assigns: Row): (r: seq<Row>)
    ensures |r| == |rows|
    ensures forall i :: 0 <= i < |rows| ==> r[i] == if HasId(rows[i], id) then rows[i] + assigns else rows[i]
  {
    if rows == [] then []
    else [if HasId(rows[0], id) then rows[0] + assigns else rows[0]] + MergeWhere(rows[1..], id, assigns)
  }

  /** The rows whose id is not `id`. */
  function Without(rows: seq<Row>, id: Value): (r: seq<Row>)
    ensures |r| <= |rows|
    ensures forall x :: x in r <==> x in rows && !HasId(x, id)
  {
    if rows == [] then []
    else (if HasId(rows[0], id) then [] else [rows[0]]) + Without(rows[1..], id)
  }

  function Write(t: Tables, c: Change): Written {
    if c.table !in t then Written(t, Err(NoSuchTable(c.table)))
    else match c
      case Insert(table, columns, values) =>
        if |columns| != |values| then Written(t, Err("column count mismatch"))
        else InsertRow(t, table, Zip(columns, values))
      case UpdateWhereId(table, columns, values) =>
        if |values| != |columns| + 1 then Written(t, Err("column count mismatch"))
        else if columns == [] then Written(t, Err("near \"WHERE\": syntax error"))
        else
          var id := values[|columns|];
          Written(t[table := MergeWhere(t[table], id, Zip(columns, values[..|columns|]))],
                  Ok(CountWhere(t[table], IdColumn, id)))
      case DeleteWhereId(table, id) =>
        Written(t[table := Without(t[table], id)], Ok(CountWhere(t[table], IdColumn, id)))
  }

  // ------------------------------------------------ facts about the statements

  lemma {:induction false} FilterAppend(a: seq<Row>, b: seq<Row>, w: Where)
    ensures Filter(a + b, w) == Filter(a, w) + Filter(b, w)
  {
    if a == [] {
      assert a + b == b;
    } else {
      var head := if Matches(a[0], w) then [a[0]] else [];
      assert (a + b)[0] == a[0] && (a + b)[1..] == a[1..] + b;
      FilterAppend(a[1..], b, w);
      calc {
        Filter(a + b, w);
        head + Filter(a[1..] + b, w);
        head + (Filter(a[1..], w) + Filter(b, w));
        (head + Filter(a[1..], w)) + Filter(b, w);
        Filter(a, w) + Filter(b, w);
      }
    }
  }

  /** No row matches `w` exactly when nothing is counted. */
  lemma FilterEmpty(rows: seq<Row>, w: Where)
    ensures Filter(rows, w) == [] <==> forall i :: 0 <= i < |rows| ==> !Matches(rows[i], w)
  {
    FilterMembers(rows, w);
    if Filter(rows, w) != [] {
      assert Filter(rows, w)[0] in Filter(rows, w);
    }
    forall i | 0 <= i < |rows| && Matches(rows[i], w) ensures Filter(rows, w) != [] {
      assert rows[i] in Filter(rows, w);
    }
  }

  /** Two tables whose rows carry the same ids, row by row, count the same rows for any id. */
  lemma {:induction false} CountSameIds(a: seq<Row>, b: seq<Row>, id: Value)
    requires |a| == |b|
    requires forall i :: 0 <= i < |a| ==> (HasId(a[i], id) <==> HasId(b[i], id))
    ensures CountWhere(a, IdColumn, id) == CountWhere(b, IdColumn, id)
  {
    if a != [] {
      CountSameIds(a[1..], b[1..], id);
    }
  }

  /** An UPDATE that does not assign the id column keeps every row's id. */
  lemma MergeKeepsIds(rows: seq<Row>, id: Value, assigns: Row, v: Value)
    requires IdColumn !in assigns
    ensures CountWhere(MergeWhere(rows, id, assigns), IdColumn, v) == CountWhere(rows, IdColumn, v)
  {
    var r := MergeWhere(rows, id, assigns);
    forall i | 0 <= i < |rows| ensures HasId(r[i], v) <==> HasId(rows[i], v) {
      if HasId(rows[i], id) {
        assert IdColumn in rows[i] + assigns <==> IdColumn in rows[i];
        assert IdColumn in rows[i] ==> (rows[i] + assigns)[IdColumn] == rows[i][IdColumn];
      }
    }
    CountSameIds(r, rows, v);
  }

  /** Running the same UPDATE again changes nothing more. */
  lemma MergeIdempotent(rows: seq<Row>, id: Value, assigns: Row)
    requires IdColumn !in assigns
    ensures MergeWhere(MergeWhere(rows, id, assigns), id, assigns) == MergeWhere(rows, id, assigns)
  {
    var r := MergeWhere(rows, id, assigns);
    var r2 := MergeWhere(r, id, assigns);
    forall i | 0 <= i < |rows| ensures r2[i] == r[i] {
      if HasId(rows[i], id) {
        assert HasId(r[i], id) by {
          assert IdColumn in rows[i] + assigns && (rows[i] + assigns)[IdColumn] == rows[i][IdColumn];
        }
        assert r[i] + assigns == r[i];
      } else {
        assert r[i] == rows[i];
      }
    }
  }

  /** An UPDATE whose id no row carries changes nothing. */
  lemma MergeNoMatch(rows: seq<Row>, id: Value, assigns: Row)
    requires CountWhere(rows, IdColumn, id) == 0
    ensures MergeWhere(rows, id, assigns) == rows
  {
    FilterEmpty(rows, ColumnIs(IdColumn, id));
  }

  lemma MergeAppend(rows: seq<Row>, x: Row, id: Value, assigns: Row)
    ensures MergeWhere(rows + [x], id, assigns) ==
            MergeWhere(rows, id, assigns) + [if HasId(x, id) then x + assigns else x]
  {
    var r := MergeWhere(rows + [x], id, assigns);
    assert r[|rows|] == if HasId(x, id) then x + assigns else x;
    forall i | 0 <= i < |rows| ensures r[i] == MergeWhere(rows, id, assigns)[i] {
      assert (rows + [x])[i] == rows[i];
    }
  }

  /** A DELETE leaves no row with its id behind. */
  lemma WithoutLeavesNone(rows: seq<Row>, id: Value)
    ensures CountWhere(Without(rows, id), IdColumn, id) == 0
  {
    FilterEmpty(Without(rows, id), ColumnIs(IdColumn, id));
    forall i | 0 <= i < |Without(rows, id)| ensures !HasId(Without(rows, id)[i], id) {
      assert Without(rows, id)[i] in Without(rows, id);
    }
  }

  /** A DELETE whose id no row carries changes nothing. */
  lemma {:induction false} WithoutNoMatch(rows: seq<Row>, id: Value)
    requires CountWhere(rows, IdColumn, id) == 0
    ensures Without(rows, id) == rows
  {
    if rows != [] {
      assert rows == [rows[0]] + rows[1..];
      FilterAppend([rows[0]], rows[1..], ColumnIs(IdColumn, id));
      WithoutNoMatch(rows[1..], id);
    }
  }

  lemma {:induction false} WithoutAppend(a: seq<Row>, b: seq<Row>, id: Value)
    ensures Without(a + b, id) == Without(a, id) + Without(b, id)
  {
    if a == [] {
      assert a + b == b;
    } else {
      WithoutAppend(a[1..], b, id);
      WithoutHead(a, b, id);
    }
  }

  /** One step of Without over a concatenation whose first part is not empty. */
  lemma WithoutHead(a: seq<Row>, b: seq<Row>, id: Value)
    requires a != []
    ensures Without(a + b, id) == (if HasId(a[0], id) then [] else [a[0]]) + Without(a[1..] + b, id)
  {
    assert (a + b)[1..] == a[1..] + b;
  }

  /** Appending a row adds one to the count of every condition it meets. */
  lemma CountAppendOne(rows: seq<Row>, x: Row, column: string, v: Value)
    ensures CountWhere(rows + [x], column, v) ==
            CountWhere(rows, column, v) + (if Matches(x, ColumnIs(column, v)) then 1 else 0)
  {
    FilterAppend(rows, [x], ColumnIs(column, v));
    assert [x][1..] == [];
  }

  /** A DELETE never makes any condition match more rows. */
  lemma {:induction false} CountWithout(rows: seq<Row>, id: Value, column: string, v: Value)
    ensures CountWhere(Without(rows, id), column, v) <= CountWhere(rows, column, v)
  {
    if rows != [] {
      var w := ColumnIs(column, v);
      var head := if HasId(rows[0], id) then [] else [rows[0]];
      CountWithout(rows[1..], id, column, v);
      FilterAppend(head, Without(rows[1..], id), w);
      if head != [] {
        assert head[1..] == [];
      }
    }
  }

  /** Two tables whose rows meet `w` at the same positions have as many rows meeting it. */
  lemma {:induction false} CountSame(a: seq<Row>, b: seq<Row>, w: Where)
    requires |a| == |b|
    requires forall i :: 0 <= i < |a| ==> (Matches(a[i], w) <==> Matches(b[i], w))
    ensures |Filter(a, w)| == |Filter(b, w)|
  {
    if a != [] {
      CountSame(a[1..], b[1..], w);
    }
  }

  /** When at most one row meets `w`, any two rows meeting it are the same row. */
  lemma OnlyMatch(rows: seq<Row>, w: Where, x: Row, y: Row)
    requires |Filter(rows, w)| <= 1
    requires x in rows && Matches(x, w) && y in rows && Matches(y, w)
    ensures x == y
  {
    FilterMembers(rows, w);
    assert x in Filter(rows, w) && y in Filter(rows, w);
  }

  /** When at most one row meets `w` and `x` does, `x` is all that `w` selects. */
  lemma SingleMatch(rows: seq<Row>, w: Where, x: Row)
    requires |Filter(rows, w)| <= 1 && x in rows && Matches(x, w)
    ensures Filter(rows, w) == [x]
  {
    FilterMembers(rows, w);
    assert x in Filter(rows, w);
  }

  /** A SELECT without WHERE returns the whole table. */
  lemma {:induction false} FilterEverything(rows: seq<Row>)
    ensures Filter(rows, Everything) == rows
  {
    if rows != [] {
      FilterEverything(rows[1..]);
      assert rows == [rows[0]] + rows[1..];
    }
  }
}
