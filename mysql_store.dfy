/**
 * The MySQL variant of the store on the server: its column type mapping,
 * the CREATE TABLE and the change-capture triggers it installs, the UTC
 * date rendering, and the connection whose `opened` flag guards every
 * statement. Row operations are the shared store's (module RowStore).
 */
module MysqlStore {
  import opened Values
  import opened Schema
  import Sync

  // ------------------------------------------------------------------ types

  /** `getSQLType`: `varchar(length)` or `varchar(40)` for strings, `datetime` for dates, anything else unchanged. */
  function GetSqlType(fieldType: string, length: Option<int>): (r: string)
    ensures fieldType == "string" && length.Some? && length.value != 0 ==>
              r == "varchar(" + DecimalString(length.value) + ")"
    ensures fieldType == "string" && (length.None? || length.value == 0) ==> r == "varchar(40)"
    ensures fieldType == "date" ==> r == "datetime"
    ensures fieldType != "string" && fieldType != "date" ==> r == fieldType
  {
    if fieldType == "string" then
      if length.Some? && length.value != 0 then "varchar(" + DecimalString(length.value) + ")" else "varchar(40)"
    else if fieldType == "date" then "datetime"
    else fieldType
  }

  // ------------------------------------------------------------------ columns

  /** One column clause: name, SQL type, nullability word, and `AUTO_INCREMENT` when flagged. */
  function ColumnClause(f: FieldDef, key: string): string {
    Join([f.name, GetSqlType(FieldType(f), f.length), Nullability(f, key)] +
         (if f.autoincrement then ["AUTO_INCREMENT"] else []), " ")
  }

  /** The clauses of a field list, in field order. */
  function Clauses(fields: seq<FieldDef>, key: string): seq<string> {
    if fields == [] then [] else Clauses(fields[..|fields| - 1], key) + [ColumnClause(fields[|fields| - 1], key)]
  }

  lemma {:induction false} ClausesInOrder(fields: seq<FieldDef>, key: string)
    ensures |Clauses(fields, key)| == |fields|
    ensures forall i :: 0 <= i < |fields| ==> Clauses(fields, key)[i] == ColumnClause(fields[i], key)
  {
    if fields != [] {
      ClausesInOrder(fields[..|fields| - 1], key);
    }
  }

  /** Everything between the parentheses of the CREATE TABLE: one clause per field, then the key. */
  function Columns(fields: seq<FieldDef>, key: string): seq<string> {
    Clauses(fields, key) + [PrimaryKeyClause(key)]
  }

  lemma JoinFour(a: string, b: string, c: string, d: string, sep: string)
    ensures Join([a, b, c, d], sep) == a + sep + b + sep + c + sep + d
  {
    assert [a, b, c, d][1..] == [b, c, d];
    JoinThree(b, c, d, sep);
  }

  /** The text of one clause: ` AUTO_INCREMENT` follows the nullability word exactly when flagged. */
  lemma ClauseText(f: FieldDef, key: string)
    ensures ColumnClause(f, key) ==
              f.name + " " + GetSqlType(FieldType(f), f.length) + " " +
              (if IsRequired(f, key) then "NOT NULL" else "NULL") +
              (if f.autoincrement then " AUTO_INCREMENT" else "")
  {
    var ty := GetSqlType(FieldType(f), f.length);
    var n := Nullability(f, key);
    if f.autoincrement {
      assert [f.name, ty, n] + ["AUTO_INCREMENT"] == [f.name, ty, n, "AUTO_INCREMENT"];
      JoinFour(f.name, ty, n, "AUTO_INCREMENT", " ");
    } else {
      assert [f.name, ty, n] + [] == [f.name, ty, n];
      JoinThree(f.name, ty, n, " ");
    }
  }

  /**
   * One clause per field in field order: NOT NULL exactly for the key and
   * required fields, ` AUTO_INCREMENT` appended exactly for flagged ones,
   * and the PRIMARY KEY clause last.
   */
  lemma ColumnsShape(fields: seq<FieldDef>, key: string)
    ensures |Columns(fields, key)| == |fields| + 1
    ensures Columns(fields, key)[|fields|] == PrimaryKeyClause(key)
    ensures forall i :: 0 <= i < |fields| ==>
              Columns(fields, key)[i] ==
                fields[i].name + " " + GetSqlType(FieldType(fields[i]), fields[i].length) + " " +
                (if IsRequired(fields[i], key) then "NOT NULL" else "NULL") +
                (if fields[i].autoincrement then " AUTO_INCREMENT" else "")
  {
    ClausesInOrder(fields, key);
    forall i | 0 <= i < |fields| {
      ClauseText(fields[i], key);
    }
  }

  // ------------------------------------------------------------------ triggers

  /** `action.charAt(0)`: the operation letter the trigger logs. */
  function Operation(action: string): (r: string)
    ensures |r| <= 1
    ensures action != [] ==> r == [action[0]]
  {
    if action == [] then "" else [action[0]]
  }

  /** The row the trigger logs: the old row for a delete, the new row otherwise. */
  function RowRef(action: string): (r: string)
    ensures r == "OLD.id" <==> action != [] && action[0] == 'D'
    ensures r == "NEW.id" <==> !(action != [] && action[0] == 'D')
  {
    if Operation(action) == "D" then "OLD.id" else "NEW.id"
  }

  /** `<table>_AFTER_<action> AFTER <action> ON <table>`: what the trigger is called and what fires it. */
  function TriggerHead(table: string, action: string): string {
    "CREATE TRIGGER " + table + "_AFTER_" + action + " AFTER " + action + " ON " + table
  }

  /** The ChangeLog row the trigger inserts: the row's id, the table name, the time and the operation letter. */
  function TriggerBody(table: string, action: string): string {
    " FOR EACH ROW " + " INSERT INTO ChangeLog SET object_id = " + RowRef(action) + ", tablename = '" + table +
    "',timestamp = NOW(),operation = '" + Operation(action) + "'"
  }

  /** `getTriggerSQL(table, action)` */
  function TriggerSql(table: string, action: string): (r: string)
    ensures |TriggerHead(table, action)| <= |r| && r[..|TriggerHead(table, action)|] == TriggerHead(table, action)
  {
    assert (TriggerHead(table, action) + TriggerBody(table, action))[..|TriggerHead(table, action)|] == TriggerHead(table, action);
    TriggerHead(table, action) + TriggerBody(table, action)
  }

  /** The statements `createTable` runs, in order. */
  function TableStatements(table: string, model: TableModel, storeKey: string): seq<string> {
    var key := KeyOf(model, storeKey);
    [DropSql(table), CreateSql(table, Columns(model.fields, key))] +
    (if table != Sync.ChangeLogTable
     then [TriggerSql(table, "INSERT"), TriggerSql(table, "DELETE"), TriggerSql(table, "UPDATE")]
     else [])
  }

  /**
   * `createTable`: the column clauses are pushed field by field, the key
   * clause last, and the statements are run in the order returned.
   */
  method CreateTable(table: string, model: TableModel, storeKey: string) returns (statements: seq<string>)
    ensures statements == TableStatements(table, model, storeKey)
  {
    var key := KeyOf(model, storeKey);
    var columns := [];
    var i := 0;
    while i < |model.fields|
      invariant 0 <= i <= |model.fields|
      invariant columns == Clauses(model.fields[..i], key)
    {
      assert model.fields[..i + 1][..i] == model.fields[..i];
      columns := columns + [ColumnClause(model.fields[i], key)];
      i := i + 1;
    }
    assert model.fields[..i] == model.fields;
    columns := columns + [PrimaryKeyClause(key)];
    statements := [DropSql(table), CreateSql(table, columns)];
    if table != Sync.ChangeLogTable {
      statements := statements + [TriggerSql(table, "INSERT"), TriggerSql(table, "DELETE"), TriggerSql(table, "UPDATE")];
    }
  }

  /** Every table but the change log gets its INSERT, DELETE and UPDATE triggers; the change log gets none. */
  lemma TriggersForTrackedTables(table: string, model: TableModel, storeKey: string)
    ensures var s := TableStatements(table, model, storeKey);
            |s| >= 2 && s[0] == DropSql(table) &&
            s[1] == CreateSql(table, Columns(model.fields, KeyOf(model, storeKey)))
    ensures table == Sync.ChangeLogTable <==> |TableStatements(table, model, storeKey)| == 2
    ensures table != Sync.ChangeLogTable ==>
              TableStatements(table, model, storeKey)[2..] ==
                [TriggerSql(table, "INSERT"), TriggerSql(table, "DELETE"), TriggerSql(table, "UPDATE")]
  {
  }

  // ------------------------------------------------------------------ dates

  /** The UTC components of a JavaScript Date; `month` is `getUTCMonth()`, counted from 0. */
  datatype UtcDate = UtcDate(year: int, month: int, day: int, hours: int, minutes: int, seconds: int)

  predicate ValidDate(d: UtcDate) {
    1000 <= d.year <= 9999 && 0 <= d.month < 12 && 1 <= d.day <= 31 &&
    0 <= d.hours < 24 && 0 <= d.minutes < 60 && 0 <= d.seconds < 60
  }

  /** `fillZeros`: a leading 0 before anything below 10. */
  function FillZeros(v: int): string {
    if v < 10 then "0" + DecimalString(v) else DecimalString(v)
  }

  /** `dateToMysql`: `YYYY-MM-DD hh:mm:ss` in UTC. */
  function DateToMysql(d: UtcDate): string {
    DecimalString(d.year) + "-" + FillZeros(d.month + 1) + "-" + FillZeros(d.day) + " " +
    FillZeros(d.hours) + ":" + FillZeros(d.minutes) + ":" + FillZeros(d.seconds)
  }

  /** The value of a run of decimal digits. */
  function DigitsValue(s: string): int {
    if s == [] then 0 else DigitsValue(s[..|s| - 1]) * 10 + (s[|s| - 1] as int - '0' as int)
  }

  lemma DigitValue(d: nat)
    requires d < 10
    ensures Digit(d) as int - '0' as int == d
  {
    assert "0123456789"[0] == '0' && "0123456789"[1] == '1' && "0123456789"[2] == '2';
    assert "0123456789"[3] == '3' && "0123456789"[4] == '4' && "0123456789"[5] == '5';
    assert "0123456789"[6] == '6' && "0123456789"[7] == '7' && "0123456789"[8] == '8';
    assert "0123456789"[9] == '9';
  }

  /** Reading back the decimal rendering of a natural number gives the number. */
  lemma {:induction false} NatStringValue(n: nat)
    ensures DigitsValue(NatString(n)) == n
  {
    var s := NatString(n);
    if n < 10 {
      DigitValue(n);
      assert s[..0] == [];
    } else {
      NatStringValue(n / 10);
      DigitValue(n % 10);
      assert s[..|s| - 1] == NatString(n / 10);
    }
  }

  lemma NatStringStep(n: nat)
    ensures n >= 10 ==> |NatString(n)| == |NatString(n / 10)| + 1
  {
  }

  lemma NatStringLength(n: nat)
    ensures n < 10 ==> |NatString(n)| == 1
    ensures 10 <= n < 100 ==> |NatString(n)| == 2
    ensures 1000 <= n < 10000 ==> |NatString(n)| == 4
  {
    if 10 <= n < 100 {
      NatStringStep(n);
    } else if 1000 <= n < 10000 {
      var a := n / 10;
      var b := a / 10;
      var c := b / 10;
      assert 100 <= a < 1000;
      assert 10 <= b < 100;
      assert 1 <= c < 10;
      NatStringStep(n);
      NatStringStep(a);
      NatStringStep(b);
    }
  }

  /** Every component from 0 to 99 becomes exactly two digits: a leading 0 below 10. */
  lemma FillZerosPads(v: int)
    requires 0 <= v < 100
    ensures |FillZeros(v)| == 2
    ensures v < 10 ==> FillZeros(v) == ['0', Digit(v)]
    ensures DigitsValue(FillZeros(v)) == v
  {
    NatStringLength(v);
    NatStringValue(v);
    if v < 10 {
      var s := FillZeros(v);
      assert s == ['0', Digit(v)];
      assert s[..1] == "0";
      assert s[..1][..0] == [];
      DigitValue(v);
    }
  }

  /** Reads the six components back from their fixed positions. */
  function ParseMysqlDate(s: string): UtcDate
    requires |s| == 19
  {
    UtcDate(DigitsValue(s[0..4]), DigitsValue(s[5..7]) - 1, DigitsValue(s[8..10]),
            DigitsValue(s[11..13]), DigitsValue(s[14..16]), DigitsValue(s[17..19]))
  }

  /** The six fields of a rendered date sit at fixed positions, whatever their digits. */
  lemma Layout(y: string, mo: string, da: string, h: string, mi: string, se: string)
    requires |y| == 4 && |mo| == 2 && |da| == 2 && |h| == 2 && |mi| == 2 && |se| == 2
    ensures var s := y + "-" + mo + "-" + da + " " + h + ":" + mi + ":" + se;
            |s| == 19 && s[0..4] == y && s[5..7] == mo && s[8..10] == da &&
            s[11..13] == h && s[14..16] == mi && s[17..19] == se &&
            s[4] == '-' && s[7] == '-' && s[10] == ' ' && s[13] == ':' && s[16] == ':'
  {
    var p1 := y + "-";
    var p2 := p1 + mo;
    var p3 := p2 + "-";
    var p4 := p3 + da;
    var p5 := p4 + " ";
    var p6 := p5 + h;
    var p7 := p6 + ":";
    var p8 := p7 + mi;
    var p9 := p8 + ":";
    var s := p9 + se;
    assert (p9 + se)[..|p9|] == p9;
    assert (p9 + se)[|p9|..] == se;
    assert (p8 + ":")[..|p8|] == p8;
    assert (p7 + mi)[..|p7|] == p7;
    assert (p7 + mi)[|p7|..] == mi;
    assert (p6 + ":")[..|p6|] == p6;
    assert (p5 + h)[..|p5|] == p5;
    assert (p5 + h)[|p5|..] == h;
    assert (p4 + " ")[..|p4|] == p4;
    assert (p3 + da)[..|p3|] == p3;
    assert (p3 + da)[|p3|..] == da;
    assert (p2 + "-")[..|p2|] == p2;
    assert (p1 + mo)[..|p1|] == p1;
    assert (p1 + mo)[|p1|..] == mo;
    assert (y + "-")[..|y|] == y;
    assert s[..17] == p9;
    assert s[..16] == p8 by { assert s[..16] == p9[..16]; }
    assert s[..14] == p7 by { assert s[..14] == p8[..14]; }
    assert s[..13] == p6 by { assert s[..13] == p7[..13]; }
    assert s[..11] == p5 by { assert s[..11] == p6[..11]; }
    assert s[..10] == p4 by { assert s[..10] == p5[..10]; }
    assert s[..8] == p3 by { assert s[..8] == p4[..8]; }
    assert s[..7] == p2 by { assert s[..7] == p3[..7]; }
    assert s[..5] == p1 by { assert s[..5] == p2[..5]; }
    assert s[17..19] == se;
    assert s[14..16] == mi by { assert s[14..16] == p8[14..]; }
    assert s[11..13] == h by { assert s[11..13] == p6[11..]; }
    assert s[8..10] == da by { assert s[8..10] == p4[8..]; }
    assert s[5..7] == mo by { assert s[5..7] == p2[5..]; }
    assert s[0..4] == y by { assert s[0..4] == p1[..4]; }
    assert s[16] == p9[16] && s[13] == p7[13] && s[10] == p5[10] && s[7] == p3[7] && s[4] == p1[4];
  }

  /** The rendering has a fixed width and loses nothing: parsing it back yields the date. */
  lemma DateRoundTrip(d: UtcDate)
    requires ValidDate(d)
    ensures |DateToMysql(d)| == 19
    ensures DateToMysql(d)[4] == '-' && DateToMysql(d)[7] == '-' && DateToMysql(d)[10] == ' '
    ensures DateToMysql(d)[13] == ':' && DateToMysql(d)[16] == ':'
    ensures ParseMysqlDate(DateToMysql(d)) == d
  {
    NatStringLength(d.year);
    NatStringValue(d.year);
    FillZerosPads(d.month + 1);
    FillZerosPads(d.day);
    FillZerosPads(d.hours);
    FillZerosPads(d.minutes);
    FillZerosPads(d.seconds);
    Layout(DecimalString(d.year), FillZeros(d.month + 1), FillZeros(d.day), FillZeros(d.hours),
           FillZeros(d.minutes), FillZeros(d.seconds));
  }

  // ------------------------------------------------------------------ connection

  /** The error the MySQL client reports: its `errno` code, its `number` and its message. */
  datatype ServerError = ServerError(errno: string, number: int, message: string)

  /** The client library's code for an unknown database (ER_BAD_DB_ERROR). */
  const ErrorBadDb := 1049

  const NotOpened := "Database connection not opened"

  /** The state `open` leaves and the answer it gives. */
  datatype OpenStep = OpenStep(isOpen: bool, outcome: Outcome<Value>)

  predicate MissingDatabase(use: Option<ServerError>) {
    use.Some? && use.value.errno != "ECONNREFUSED" && use.value.number == ErrorBadDb
  }

  /**
   * `open` as written: `USE database`; a refused connection and any other
   * error are reported; an unknown database is created, and on success the
   * connection is marked opened but the callback is never called.
   */
  function OpenAsWritten(isOpen: bool, use: Option<ServerError>, create: Option<ServerError>): OpenStep {
    match use
    case None => OpenStep(true, Success(Null))
    case Some(e) =>
      if e.errno == "ECONNREFUSED" then OpenStep(isOpen, Failure("Connection to MySQL server refused"))
      else if e.number == ErrorBadDb then
        match create
        case Some(c) => OpenStep(false, Failure(c.message))
        case None => OpenStep(true, NoCallback)
      else OpenStep(isOpen, Failure(e.message))
  }

  /** `open` as intended: the same, except that creating the database answers like a successful USE. */
  function OpenSpec(isOpen: bool, use: Option<ServerError>, create: Option<ServerError>): (r: OpenStep)
    ensures !r.outcome.NoCallback?
    ensures r.outcome.Success? <==> r.isOpen && (use.None? || (MissingDatabase(use) && create.None?))
  {
    if MissingDatabase(use) && create.None? then OpenStep(true, Success(Null))
    else OpenAsWritten(isOpen, use, create)
  }

  /** Creating the missing database leaves the caller of `open` waiting forever, and only that path does. */
  lemma OpenNeverAnswersAfterCreate(isOpen: bool, use: Option<ServerError>, create: Option<ServerError>)
    ensures OpenAsWritten(isOpen, use, create).outcome.NoCallback? <==> MissingDatabase(use) && create.None?
    ensures !(MissingDatabase(use) && create.None?) ==> OpenAsWritten(isOpen, use, create) == OpenSpec(isOpen, use, create)
    ensures OpenAsWritten(false, Some(ServerError("", ErrorBadDb, "Unknown database")), None) ==
            OpenStep(true, NoCallback)
  {
  }

  /** What the client library hands back for a statement: rows for a SELECT, an OK packet otherwise. */
  datatype QueryData = RowsData(rows: seq<Row>) | OkPacket(affectedRows: nat)

  /** The `{rows}` or `{rowsAffected}` object `executeSQL` passes on. */
  datatype SqlResult = SqlResult(rows: Option<seq<Row>>, rowsAffected: Option<nat>)

  /** A connection to the server: whether `open` succeeded. */
  class Connection {
    var isOpen: bool

    constructor ()
      ensures !isOpen
    {
      isOpen := false;
    }

    /** `open`, with the replies to USE and to CREATE DATABASE as inputs. */
    method Open(use: Option<ServerError>, create: Option<ServerError>) returns (r: Outcome<Value>)
      modifies this`isOpen
      ensures OpenStep(isOpen, r) == OpenSpec(old(isOpen), use, create)
    {
      r := NoCallback;
      if use.None? {
        isOpen := true;
        r := Success(Null);
      } else if use.value.errno == "ECONNREFUSED" {
        r := Failure("Connection to MySQL server refused");
      } else if use.value.number == ErrorBadDb {
        if create.Some? {
          isOpen := false;
          r := Failure(create.value.message);
        } else {
          isOpen := true;
          r := Success(Null);
        }
      } else {
        r := Failure(use.value.message);
      }
    }

    /**
     * `executeSQL`, with the server's reply as input: refused before the
     * connection is opened, an error passed on, rows for array data and the
     * affected count for anything else.
     */
    method ExecuteSql(reply: Result<QueryData>) returns (r: Outcome<SqlResult>)
      ensures !isOpen ==> r == Failure(NotOpened)
      ensures isOpen && reply.Err? ==> r == Failure(reply.message)
      ensures isOpen && reply.Ok? && reply.value.RowsData? ==> r == Success(SqlResult(Some(reply.value.rows), None))
      ensures isOpen && reply.Ok? && reply.value.OkPacket? ==>
                r == Success(SqlResult(None, Some(reply.value.affectedRows)))
      ensures r.Success? ==> r.value.rows.Some? != r.value.rowsAffected.Some?
    {
      if !isOpen {
        return Failure(NotOpened);
      }
      match reply
      case Err(m) =>
        r := Failure(m);
      case Ok(RowsData(rows)) =>
        r := Success(SqlResult(Some(rows), None));
      case Ok(OkPacket(n)) =>
        r := Success(SqlResult(None, Some(n)));
    }
  }

  /** A connection opened successfully runs statements; one never opened refuses them all. */
  lemma OpenedGuardsStatements(isOpen: bool, use: Option<ServerError>, create: Option<ServerError>)
    ensures OpenSpec(isOpen, use, create).outcome.Success? ==> OpenSpec(isOpen, use, create).isOpen
    ensures use.Some? && !MissingDatabase(use) ==> OpenSpec(isOpen, use, create).isOpen == isOpen
  {
  }
}
