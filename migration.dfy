/**
 * Chunked data migration: the mapped columns of a source table are selected,
 * read back in chunks of `chunksize` rows, renamed through the column map and
 * appended chunk by chunk to a target table in another database.
 *
 * A database is a map from table names to tables; a table is a set of column
 * names, the DEFAULT of each column that declares one, and its rows in
 * insertion order; a row maps column names to values.
 * The DataFrame machinery that carries the rows (the chunked read, `rename`,
 * `to_sql`) is modelled by its effect on these values.
 */
module Migration {
  import opened Common

  datatype Value = Null | Int(i: int) | Real(r: real) | Text(s: string)

  type Row = map<string, Value>

  datatype Table = Table(columns: set<string>, defaults: map<string, Value>, rows: seq<Row>)

  type Tables = map<string, Table>

  function Min(a: int, b: int): int
  {
    if a <= b then a else b
  }

  /** The value of a column in a row; a column the row does not carry reads as NULL. */
  function Lookup(r: Row, c: string): Value
  {
    if c in r then r[c] else Null
  }

  function ColumnSet(cols: seq<string>): (s: set<string>)
    ensures forall c :: c in s <==> c in cols
  {
    set c | c in cols
  }

  /** The first column of `cols` that is not among `have`, if any. */
  function MissingColumn(cols: seq<string>, have: set<string>): (r: Option<string>)
    ensures r.None? <==> forall c :: c in cols ==> c in have
    ensures r.Some? ==> r.value in cols && r.value !in have
  {
    if cols == [] then None
    else if cols[0] !in have then Some(cols[0])
    else MissingColumn(cols[1..], have)
  }

  // ---------------------------------------------------------------------
  // Reading the source

  /** A row cut down to the selected columns. */
  function Project(r: Row, cols: seq<string>): (p: Row)
    ensures p.Keys == ColumnSet(cols)
    ensures forall c :: c in p ==> p[c] == Lookup(r, c)
  {
    map c | c in cols :: Lookup(r, c)
  }

  /**
   * `SELECT c1, ..., cn FROM table`: every row of the table, in order,
   * projected onto the selected columns; an unknown table or column is an
   * error of the source database.
   */
  function Select(tables: Tables, name: string, cols: seq<string>): (r: Result<seq<Row>>)
    ensures r.Ok? ==> name in tables && |r.value| == |tables[name].rows|
    ensures r.Ok? ==> forall i :: 0 <= i < |r.value| ==> r.value[i] == Project(tables[name].rows[i], cols)
    ensures r.Err? <==> name !in tables || MissingColumn(cols, tables[name].columns).Some?
  {
    if name !in tables then Err(NoSuchTable(name))
    else match MissingColumn(cols, tables[name].columns)
      case Some(c) => Err(NoSuchColumn(c))
      case None =>
        var rows := tables[name].rows;
        Ok(seq(|rows|, i requires 0 <= i < |rows| => Project(rows[i], cols)))
  }

  /** The selected rows, or none when the select fails. */
  function SelectedRows(tables: Tables, name: string, cols: seq<string>): seq<Row>
  {
    match Select(tables, name, cols)
    case Ok(rows) => rows
    case Err(_) => []
  }

  /**
   * The chunk stream of a chunked read: consecutive slices of `n` rows, the
   * last one possibly shorter. A query that returns no row still yields one
   * chunk, which is empty.
   */
  function Chunks(rows: seq<Row>, n: nat): seq<seq<Row>>
    requires n > 0
    decreases |rows|
  {
    if |rows| <= n then [rows] else [rows[..n]] + Chunks(rows[n..], n)
  }

  /** The number of non-empty chunks of `len` rows. */
  function NumBatches(len: nat, n: nat): nat
    requires n > 0
    decreases len
  {
    if len == 0 then 0 else if len <= n then 1 else 1 + NumBatches(len - n, n)
  }

  function Concat(chunks: seq<seq<Row>>): seq<Row>
  {
    if chunks == [] then [] else chunks[0] + Concat(chunks[1..])
  }

  /**
   * The row counts a chunked write can have completed when it stops early:
   * none, or every row before the start of some chunk of `n` rows in a result
   * of `len` rows.
   */
  function CommitPoints(len: nat, n: nat): set<nat>
    requires n > 0
  {
    {0} + set j: nat | j < len && Offset(j, n) < len :: Offset(j, n)
  }

  /** The number of rows in the first `j` chunks of `n` rows: `j * n`, counted chunk by chunk. */
  function Offset(j: nat, n: nat): nat
  {
    if j == 0 then 0 else Offset(j - 1, n) + n
  }

  // ---------------------------------------------------------------------
  // Renaming and writing the target

  /** The target column names of a column map, in map order. */
  function TargetNames(columnMap: Dict<string>): (ts: seq<string>)
    ensures |ts| == |columnMap|
    ensures forall i :: 0 <= i < |columnMap| ==> ts[i] == columnMap[i].1
  {
    seq(|columnMap|, i requires 0 <= i < |columnMap| => columnMap[i].1)
  }

  /**
   * `DataFrame.rename(columns=column_map)` on one row: the value of each
   * source column moves under its target name. When two source columns share
   * a target name the later one in the map wins.
   */
  function RenameRow(r: Row, columnMap: Dict<string>): (t: Row)
    ensures t.Keys == ColumnSet(TargetNames(columnMap))
  {
    var pairs := RenamedPairs(r, columnMap);
    var targets := TargetNames(columnMap);
    assert forall c :: c in ToMap(pairs) <==> c in targets by {
      forall c ensures c in ToMap(pairs) <==> c in targets {
        if c in targets {
          var i :| 0 <= i < |targets| && targets[i] == c;
          assert pairs[i].0 == c;
        }
      }
    }
    ToMap(pairs)
  }

  /** Each entry of the map paired with the value of its source column in `r`. */
  function RenamedPairs(r: Row, columnMap: Dict<string>): (ps: Dict<Value>)
    ensures |ps| == |columnMap|
    ensures forall i :: 0 <= i < |columnMap| ==> ps[i] == (columnMap[i].1, Lookup(r, columnMap[i].0))
  {
    seq(|columnMap|, i requires 0 <= i < |columnMap| => (columnMap[i].1, Lookup(r, columnMap[i].0)))
  }

  /** Under a target name that no later entry reuses, the renamed row holds its source column's value. */
  lemma RenamedValue(r: Row, columnMap: Dict<string>, i: nat)
    requires i < |columnMap|
    requires forall j :: i < j < |columnMap| ==> columnMap[j].1 != columnMap[i].1
    ensures columnMap[i].1 in RenameRow(r, columnMap)
    ensures RenameRow(r, columnMap)[columnMap[i].1] == Lookup(r, columnMap[i].0)
  {
    ToMapLatest(RenamedPairs(r, columnMap), i);
  }

  function RenameAll(rows: seq<Row>, columnMap: Dict<string>): (r: seq<Row>)
    ensures |r| == |rows|
    ensures forall i :: 0 <= i < |rows| ==> r[i] == RenameRow(rows[i], columnMap)
  {
    seq(|rows|, i requires 0 <= i < |rows| => RenameRow(rows[i], columnMap))
  }

  /** What an INSERT that does not name column `c` stores there: the column's DEFAULT, or NULL without one. */
  function ColumnDefault(t: Table, c: string): Value
  {
    if c in t.defaults then t.defaults[c] else Null
  }

  /**
   * A row as stored by an INSERT that names exactly the row's columns: every
   * column of the table the row does not name takes its default.
   */
  function Widen(r: Row, t: Table): (w: Row)
    ensures w.Keys == t.columns
  {
    map c | c in t.columns :: if c in r then r[c] else ColumnDefault(t, c)
  }

  function WidenAll(rows: seq<Row>, t: Table): (r: seq<Row>)
    ensures |r| == |rows|
    ensures forall i :: 0 <= i < |rows| ==> r[i] == Widen(rows[i], t)
  {
    seq(|rows|, i requires 0 <= i < |rows| => Widen(rows[i], t))
  }

  /** Appending a frame with these columns fails when the table exists without one of them. */
  function AppendError(tables: Tables, name: string, columns: seq<string>): (e: Option<DbError>)
    ensures e.Some? <==> name in tables && MissingColumn(columns, tables[name].columns).Some?
  {
    if name !in tables then None
    else match MissingColumn(columns, tables[name].columns)
      case Some(c) => Some(NoSuchColumn(c))
      case None => None
  }

  /** Rows are stored alike in two tables with the same columns and defaults. */
  lemma WidenAllSchema(rows: seq<Row>, t1: Table, t2: Table)
    requires t1.columns == t2.columns && t1.defaults == t2.defaults
    ensures WidenAll(rows, t1) == WidenAll(rows, t2)
  {
    forall i | 0 <= i < |rows| ensures Widen(rows[i], t1) == Widen(rows[i], t2) {
    }
  }

  /**
   * `to_sql(name, if_exists="append")` of a frame that passed `AppendError`:
   * an empty frame changes nothing; otherwise a missing table is created with
   * the frame's columns (and no DEFAULT clauses), and the rows go at the end
   * of the table.
   */
  function AppendRows(tables: Tables, name: string, columns: seq<string>, rows: seq<Row>): Tables
  {
    if rows == [] then tables
    else
      var t := if name in tables then tables[name] else Table(ColumnSet(columns), map[], []);
      tables[name := t.(rows := t.rows + WidenAll(rows, t))]
  }

  /** A database engine: the tables behind one connection URL. */
  class Database {
    var tables: Tables

    constructor (initial: Tables)
      ensures tables == initial
    {
      tables := initial;
    }

    /**
     * One `to_sql` call in append mode, run in a transaction of its own: the
     * statement is number `step` of the migration, and either every row is
     * appended or, on an error, none.
     */
    method AppendFrame(name: string, columns: seq<string>, rows: seq<Row>, fault: Fault, step: nat)
      returns (err: Option<DbError>)
      modifies this
      ensures err == if FailsAt(fault, step) then Some(Raised(fault.error)) else AppendError(old(tables), name, columns)
      ensures tables == if err.None? then AppendRows(old(tables), name, columns, rows) else old(tables)
    {
      if FailsAt(fault, step) {
        return Some(Raised(fault.error));
      }
      err := AppendError(tables, name, columns);
      if err.None? {
        tables := AppendRows(tables, name, columns, rows);
      }
    }
  }

  // ---------------------------------------------------------------------
  // The outcome of a migration

  datatype Outcome = Outcome(ok: bool, msg: Message, tables: Tables)

  /**
   * What a migration does to the target tables, stated without its loop.
   * Statement 0 is the select; statement j is the append of the j-th chunk.
   */
  function Migrate(source: Tables, target: Tables, sourceTable: string, targetTable: string,
                   columnMap: Dict<string>, chunksize: nat, fault: Fault): Outcome
    requires chunksize > 0
  {
    var columns := Keys(columnMap);
    if columns == [] then Outcome(false, NoSourceColumns, target)
    else if FailsAt(fault, 0) then Outcome(false, MigrationFailed(Raised(fault.error)), target)
    else match Select(source, sourceTable, columns)
      case Err(e) => Outcome(false, MigrationFailed(e), target)
      case Ok(rows) => Transfer(target, sourceTable, targetTable, columnMap, rows, chunksize, fault)
  }

  /**
   * Writing the selected rows: nothing to write succeeds at once; an append
   * the target table cannot take fails on the first chunk; a fault on the
   * append of chunk j leaves the j - 1 chunks before it appended.
   */
  function Transfer(target: Tables, sourceTable: string, targetTable: string, columnMap: Dict<string>,
                    rows: seq<Row>, chunksize: nat, fault: Fault): Outcome
    requires chunksize > 0 && !FailsAt(fault, 0)
  {
    var targets := TargetNames(columnMap);
    if rows == [] then Outcome(true, Migrated(0, sourceTable, targetTable), target)
    else if AppendError(target, targetTable, targets).Some? && !FailsAt(fault, 1) then
      Outcome(false, MigrationFailed(AppendError(target, targetTable, targets).value), target)
    else if Hits(fault, NumBatches(|rows|, chunksize) + 1) then
      var written := Min(Offset(fault.step - 1, chunksize), |rows|);
      Outcome(false, MigrationFailed(Raised(fault.error)),
              AppendRows(target, targetTable, targets, RenameAll(rows[..written], columnMap)))
    else
      Outcome(true, Migrated(|rows|, sourceTable, targetTable),
              AppendRows(target, targetTable, targets, RenameAll(rows, columnMap)))
  }

  /**
   * Migrates the mapped columns of `sourceTable` into `targetTable`, one
   * chunk at a time, and reports the number of rows written.
   */
  method MigrateData(source: Database, target: Database, sourceTable: string, targetTable: string,
                     columnMap: Dict<string>, chunksize: nat, fault: Fault)
    returns (ok: bool, msg: Message)
    requires chunksize > 0
    modifies target
    ensures Outcome(ok, msg, target.tables)
         == Migrate(old(source.tables), old(target.tables), sourceTable, targetTable, columnMap, chunksize, fault)
  {
    var columns := Keys(columnMap);
    if columns == [] {
      return false, NoSourceColumns;
    }
    if FailsAt(fault, 0) {
      return false, MigrationFailed(Raised(fault.error));
    }
    var selected := Select(source.tables, sourceTable, columns);
    if selected.Err? {
      return false, MigrationFailed(selected.error);
    }
    ok, msg := TransferChunks(target, sourceTable, targetTable, columnMap, selected.value, chunksize, fault);
  }

  /** The loop over the chunk stream: skip an empty chunk, rename, append, count. */
  method TransferChunks(target: Database, sourceTable: string, targetTable: string, columnMap: Dict<string>,
                        rows: seq<Row>, chunksize: nat, fault: Fault)
    returns (ok: bool, msg: Message)
    requires chunksize > 0 && !FailsAt(fault, 0)
    modifies target
    ensures Outcome(ok, msg, target.tables)
         == Transfer(old(target.tables), sourceTable, targetTable, columnMap, rows, chunksize, fault)
  {
    var targets := TargetNames(columnMap);
    ghost var initial := target.tables;
    var chunks := Chunks(rows, chunksize);
    ChunksShape(rows, chunksize);
    var total := 0;
    var step := 1;
    var i := 0;
    while i < |chunks|
      invariant 0 <= i <= |chunks|
      invariant total == Min(Offset(i, chunksize), |rows|)
      invariant step == if rows == [] then 1 else i + 1
      invariant !Hits(fault, step)
      invariant rows != [] && i > 0 ==> AppendError(initial, targetTable, targets).None?
      invariant target.tables == AppendRows(initial, targetTable, targets, RenameAll(rows[..total], columnMap))
    {
      ChunkBounds(rows, chunksize, i);
      ghost var next := Min(Offset(i + 1, chunksize), |rows|);
      var chunk := chunks[i];
      if chunk != [] {
        var renamed := RenameAll(chunk, columnMap);
        if AppendError(initial, targetTable, targets).None? {
          AppendChunk(initial, targetTable, targets, rows, columnMap, total, next);
        }
        ghost var before := target.tables;
        var err := target.AppendFrame(targetTable, targets, renamed, fault, step);
        if err.Some? {
          if i == 0 {
            assert rows[..total] == [];
            assert before == initial;
          }
          TransferStops(initial, sourceTable, targetTable, columnMap, rows, chunksize, fault, i);
          return false, MigrationFailed(err.value);
        }
        total := total + |renamed|;
        step := step + 1;
      }
      i := i + 1;
    }
    assert rows[..total] == rows;
    TransferCompletes(initial, sourceTable, targetTable, columnMap, rows, chunksize, fault);
    return true, Migrated(total, sourceTable, targetTable);
  }

  /**
   * A transfer whose chunk `i` is the first to fail (by a fault on its append,
   * or because the target cannot take the columns, which only the first
   * append can find out) ends with the chunks before it appended.
   */
  lemma TransferStops(target: Tables, sourceTable: string, targetTable: string, columnMap: Dict<string>,
                      rows: seq<Row>, n: nat, fault: Fault, i: nat)
    requires n > 0 && !FailsAt(fault, 0) && rows != [] && i < NumBatches(|rows|, n)
    requires !Hits(fault, i + 1)
    requires i > 0 ==> AppendError(target, targetTable, TargetNames(columnMap)).None?
    requires FailsAt(fault, i + 1) || AppendError(target, targetTable, TargetNames(columnMap)).Some?
    ensures Transfer(target, sourceTable, targetTable, columnMap, rows, n, fault)
         == Outcome(false,
                    MigrationFailed(if FailsAt(fault, i + 1) then Raised(fault.error)
                                    else AppendError(target, targetTable, TargetNames(columnMap)).value),
                    AppendRows(target, targetTable, TargetNames(columnMap), RenameAll(rows[..Min(Offset(i, n), |rows|)], columnMap)))
  {
    if i == 0 {
      assert RenameAll(rows[..0], columnMap) == [];
    }
  }

  /** A transfer in which no append fails ends with every row appended. */
  lemma TransferCompletes(target: Tables, sourceTable: string, targetTable: string, columnMap: Dict<string>,
                          rows: seq<Row>, n: nat, fault: Fault)
    requires n > 0 && !FailsAt(fault, 0)
    requires !Hits(fault, if rows == [] then 1 else NumBatches(|rows|, n) + 1)
    requires rows != [] ==> AppendError(target, targetTable, TargetNames(columnMap)).None?
    ensures Transfer(target, sourceTable, targetTable, columnMap, rows, n, fault)
         == Outcome(true, Migrated(|rows|, sourceTable, targetTable),
                    AppendRows(target, targetTable, TargetNames(columnMap), RenameAll(rows, columnMap)))
  {
    if rows == [] {
      assert RenameAll(rows, columnMap) == [];
    }
  }

  // ---------------------------------------------------------------------
  // Facts about chunks

  /** The chunk stream has one chunk per `n` rows (one empty chunk for no rows), and covers every row. */
  lemma {:induction false} ChunksShape(rows: seq<Row>, n: nat)
    requires n > 0
    ensures |Chunks(rows, n)| == if rows == [] then 1 else NumBatches(|rows|, n)
    ensures |rows| <= Offset(|Chunks(rows, n)|, n)
    ensures rows != [] ==> Offset(|Chunks(rows, n)| - 1, n) < |rows|
    decreases |rows|
  {
    if |rows| > n {
      var c := |Chunks(rows[n..], n)|;
      ChunksShape(rows[n..], n);
      assert Offset(c + 1, n) == Offset(c, n) + n;
    }
  }

  /** Chunk `i` is the slice of rows from `i * n` up to `(i + 1) * n` or the end. */
  lemma {:induction false} ChunkAt(rows: seq<Row>, n: nat, i: nat)
    requires n > 0 && i < |Chunks(rows, n)|
    ensures Offset(i, n) <= |rows| && (rows != [] ==> Offset(i, n) < |rows|)
    ensures Chunks(rows, n)[i] == rows[Offset(i, n) .. Min(Offset(i + 1, n), |rows|)]
    decreases |rows|
  {
    if |rows| > n && i > 0 {
      var rest := rows[n..];
      assert Chunks(rows, n)[i] == Chunks(rest, n)[i - 1];
      ChunkAt(rest, n, i - 1);
      var lo := Offset(i - 1, n);
      var hi := Min(Offset(i, n), |rest|);
      assert lo + n == Offset(i, n) && Offset(i, n) + n == Offset(i + 1, n);
      assert hi + n == Min(Offset(i + 1, n), |rows|);
      assert rest[lo..hi] == rows[lo + n .. hi + n];
    }
  }

  /** Chunk `i` runs from where chunk `i - 1` stopped to where chunk `i + 1` starts. */
  lemma ChunkBounds(rows: seq<Row>, n: nat, i: nat)
    requires n > 0 && i < |Chunks(rows, n)|
    ensures Min(Offset(i, n), |rows|) <= Min(Offset(i + 1, n), |rows|) <= |rows|
    ensures rows != [] ==> Min(Offset(i, n), |rows|) < Min(Offset(i + 1, n), |rows|)
    ensures Chunks(rows, n)[i] == rows[Min(Offset(i, n), |rows|) .. Min(Offset(i + 1, n), |rows|)]
  {
    ChunkAt(rows, n, i);
    assert Offset(i + 1, n) == Offset(i, n) + n;
  }

  /** Putting the chunks back together gives the rows. */
  lemma {:induction false} ChunksConcat(rows: seq<Row>, n: nat)
    requires n > 0
    ensures Concat(Chunks(rows, n)) == rows
    decreases |rows|
  {
    if |rows| > n {
      ChunksConcat(rows[n..], n);
      assert rows == rows[..n] + rows[n..];
    } else {
      assert Concat([rows]) == rows + Concat([]);
    }
  }

  /** Every chunk holds between 1 and `n` rows, unless the result is empty. */
  lemma ChunkSizes(rows: seq<Row>, n: nat)
    requires n > 0
    ensures forall i :: 0 <= i < |Chunks(rows, n)| ==> |Chunks(rows, n)[i]| <= n
    ensures rows != [] ==> forall i :: 0 <= i < |Chunks(rows, n)| ==> Chunks(rows, n)[i] != []
  {
    forall i | 0 <= i < |Chunks(rows, n)|
      ensures |Chunks(rows, n)[i]| <= n && (rows != [] ==> Chunks(rows, n)[i] != [])
    {
      ChunkAt(rows, n, i);
    }
  }

  // ---------------------------------------------------------------------
  // Facts about appending

  lemma RenameAllAppend(a: seq<Row>, b: seq<Row>, columnMap: Dict<string>)
    ensures RenameAll(a + b, columnMap) == RenameAll(a, columnMap) + RenameAll(b, columnMap)
  {
  }

  /**
   * Two appends of frames with the same columns are one append of both: the
   * first may create the table, after which the second cannot fail.
   */
  lemma AppendRowsTwice(tables: Tables, name: string, columns: seq<string>, a: seq<Row>, b: seq<Row>)
    requires AppendError(tables, name, columns).None?
    ensures AppendError(AppendRows(tables, name, columns, a), name, columns).None?
    ensures AppendRows(AppendRows(tables, name, columns, a), name, columns, b)
         == AppendRows(tables, name, columns, a + b)
  {
    if a == [] {
      assert a + b == b;
    } else if b == [] {
      assert a + b == a;
    } else {
      AppendRowsTwiceBoth(tables, name, columns, a, b);
    }
  }

  lemma AppendRowsTwiceBoth(tables: Tables, name: string, columns: seq<string>, a: seq<Row>, b: seq<Row>)
    requires a != [] && b != []
    ensures AppendRows(AppendRows(tables, name, columns, a), name, columns, b)
         == AppendRows(tables, name, columns, a + b)
  {
    var t := if name in tables then tables[name] else Table(ColumnSet(columns), map[], []);
    var u := t.(rows := t.rows + WidenAll(a, t));
    assert AppendRows(tables, name, columns, a) == tables[name := u];
    AppendToTable(t, a, b);
  }

  /** Widening two frames into a table one after the other is widening both at once. */
  lemma AppendToTable(t: Table, a: seq<Row>, b: seq<Row>)
    ensures var u := t.(rows := t.rows + WidenAll(a, t));
            u.(rows := u.rows + WidenAll(b, u)) == t.(rows := t.rows + WidenAll(a + b, t))
  {
    var u := t.(rows := t.rows + WidenAll(a, t));
    WidenAllSchema(b, u, t);
    WidenAllAppend(a, b, t);
    assert u.rows + WidenAll(b, u) == t.rows + WidenAll(a + b, t);
  }

  lemma WidenAllAppend(a: seq<Row>, b: seq<Row>, t: Table)
    ensures WidenAll(a + b, t) == WidenAll(a, t) + WidenAll(b, t)
  {
    var l, r := WidenAll(a + b, t), WidenAll(a, t) + WidenAll(b, t);
    forall i | 0 <= i < |l| ensures l[i] == r[i] {
      if i < |a| {
        assert (a + b)[i] == a[i];
      } else {
        assert (a + b)[i] == b[i - |a|];
      }
    }
  }

  /** Appending the chunk `rows[from..to]` after `rows[..from]` leaves `rows[..to]` appended. */
  lemma AppendChunk(tables: Tables, name: string, columns: seq<string>, rows: seq<Row>,
                    columnMap: Dict<string>, from: nat, to: nat)
    requires from <= to <= |rows|
    requires AppendError(tables, name, columns).None?
    ensures AppendError(AppendRows(tables, name, columns, RenameAll(rows[..from], columnMap)), name, columns).None?
    ensures AppendRows(AppendRows(tables, name, columns, RenameAll(rows[..from], columnMap)), name, columns,
                       RenameAll(rows[from..to], columnMap))
         == AppendRows(tables, name, columns, RenameAll(rows[..to], columnMap))
  {
    assert rows[..to] == rows[..from] + rows[from..to];
    RenameAllAppend(rows[..from], rows[from..to], columnMap);
    AppendRowsTwice(tables, name, columns, RenameAll(rows[..from], columnMap), RenameAll(rows[from..to], columnMap));
  }

  // ---------------------------------------------------------------------
  // What a migration promises

  /**
   * An empty column map is refused before anything is read; a source table
   * or column that does not exist fails the read; neither writes anything.
   * Whatever the storage does, a migration that reports success has appended
   * every selected row, and reports their number.
   */
  lemma MigrationOutcome(source: Tables, target: Tables, sourceTable: string, targetTable: string,
                         columnMap: Dict<string>, chunksize: nat, fault: Fault)
    requires chunksize > 0
    ensures var o := Migrate(source, target, sourceTable, targetTable, columnMap, chunksize, fault);
            && (columnMap == [] ==> o == Outcome(false, NoSourceColumns, target))
            && (columnMap != [] && !FailsAt(fault, 0) && Select(source, sourceTable, Keys(columnMap)).Err? ==>
                  o == Outcome(false, MigrationFailed(Select(source, sourceTable, Keys(columnMap)).error), target))
            && (o.ok ==>
                  var rows := SelectedRows(source, sourceTable, Keys(columnMap));
                  && columnMap != [] && sourceTable in source
                  && o.msg == Migrated(|rows|, sourceTable, targetTable)
                  && |rows| == |source[sourceTable].rows|
                  && o.tables == AppendRows(target, targetTable, TargetNames(columnMap), RenameAll(rows, columnMap)))
  {
    if columnMap != [] && !FailsAt(fault, 0) && Select(source, sourceTable, Keys(columnMap)).Ok? {
      var rows := SelectedRows(source, sourceTable, Keys(columnMap));
      if rows == [] {
        assert RenameAll(rows, columnMap) == [];
      }
    }
  }

  /**
   * Without a fault, a migration from an existing table with the mapped
   * columns into a target that can take them succeeds for every chunk size:
   * the target table ends up as its old rows followed by every source row in
   * source order, projected and renamed; the count reported is the number of
   * source rows; no other table changes.
   */
  lemma MigrationAppendsAll(source: Tables, target: Tables, sourceTable: string, targetTable: string,
                            columnMap: Dict<string>, chunksize: nat)
    requires chunksize > 0 && columnMap != []
    requires Select(source, sourceTable, Keys(columnMap)).Ok?
    requires AppendError(target, targetTable, TargetNames(columnMap)).None?
    ensures var rows := SelectedRows(source, sourceTable, Keys(columnMap));
            var o := Migrate(source, target, sourceTable, targetTable, columnMap, chunksize, NoFault);
            && o.ok
            && o.msg == Migrated(|source[sourceTable].rows|, sourceTable, targetTable)
            && (rows == [] ==> o.tables == target)
            && (rows != [] ==>
                  && targetTable in o.tables
                  && o.tables[targetTable].rows
                     == (if targetTable in target then target[targetTable].rows else [])
                        + WidenAll(RenameAll(rows, columnMap), o.tables[targetTable]))
            && (forall t :: t != targetTable ==> (t in o.tables <==> t in target))
            && (forall t :: t != targetTable && t in target ==> o.tables[t] == target[t])
  {
    assert Keys(columnMap) != [];
    if SelectedRows(source, sourceTable, Keys(columnMap)) != [] {
      var t := if targetTable in target then target[targetTable] else Table(ColumnSet(TargetNames(columnMap)), map[], []);
      var o := Migrate(source, target, sourceTable, targetTable, columnMap, chunksize, NoFault);
      WidenAllSchema(RenameAll(SelectedRows(source, sourceTable, Keys(columnMap)), columnMap), o.tables[targetTable], t);
    }
  }

  /**
   * The chunk size never changes what a migration without a fault does. This
   * follows from the definition of `Migrate` alone; that the chunked loop of
   * `MigrateData` really has that outcome is the contract of `TransferChunks`.
   */
  lemma ChunkSizeIrrelevant(source: Tables, target: Tables, sourceTable: string, targetTable: string,
                            columnMap: Dict<string>, n1: nat, n2: nat)
    requires n1 > 0 && n2 > 0
    ensures Migrate(source, target, sourceTable, targetTable, columnMap, n1, NoFault)
         == Migrate(source, target, sourceTable, targetTable, columnMap, n2, NoFault)
  {
  }

  /**
   * Each migrated row carries, under a target column, the value of the source
   * column mapped to it (the latest entry of the map for that target). A
   * column the map does not fill exists only in a target table that was
   * already there, and holds that table's default for it.
   */
  lemma MigratedRowValues(source: Tables, target: Tables, sourceTable: string, targetTable: string,
                          columnMap: Dict<string>, chunksize: nat, k: nat, i: nat)
    requires chunksize > 0 && columnMap != []
    requires Select(source, sourceTable, Keys(columnMap)).Ok?
    requires AppendError(target, targetTable, TargetNames(columnMap)).None?
    requires k < |source[sourceTable].rows| && i < |columnMap|
    requires forall j :: i < j < |columnMap| ==> columnMap[j].1 != columnMap[i].1
    ensures var o := Migrate(source, target, sourceTable, targetTable, columnMap, chunksize, NoFault);
            var base := if targetTable in target then |target[targetTable].rows| else 0;
            && targetTable in o.tables
            && base + k < |o.tables[targetTable].rows|
            && columnMap[i].1 in o.tables[targetTable].rows[base + k]
            && o.tables[targetTable].rows[base + k][columnMap[i].1] == Lookup(source[sourceTable].rows[k], columnMap[i].0)
            && (forall c :: c in o.tables[targetTable].rows[base + k] && c !in TargetNames(columnMap) ==>
                  targetTable in target && o.tables[targetTable].rows[base + k][c] == ColumnDefault(target[targetTable], c))
  {
    var cols := Keys(columnMap);
    var rows := SelectedRows(source, sourceTable, cols);
    var targets := TargetNames(columnMap);
    MigratedRow(source, target, sourceTable, targetTable, columnMap, chunksize, k);
    var t := Migrate(source, target, sourceTable, targetTable, columnMap, chunksize, NoFault).tables[targetTable];
    WidenedRename(rows[k], columnMap, t, i);
    assert columnMap[i].0 in cols;
    assert Lookup(rows[k], columnMap[i].0) == Lookup(source[sourceTable].rows[k], columnMap[i].0);
  }

  /**
   * A renamed row widened to a table holds each target name's value, and
   * the table's default under every column the map does not fill.
   */
  lemma WidenedRename(r: Row, columnMap: Dict<string>, t: Table, i: nat)
    requires i < |columnMap|
    requires forall j :: i < j < |columnMap| ==> columnMap[j].1 != columnMap[i].1
    requires columnMap[i].1 in t.columns
    ensures var w := Widen(RenameRow(r, columnMap), t);
            && columnMap[i].1 in w
            && w[columnMap[i].1] == Lookup(r, columnMap[i].0)
            && (forall c :: c in w && c !in TargetNames(columnMap) ==> w[c] == ColumnDefault(t, c))
  {
    RenamedValue(r, columnMap, i);
  }

  /** Row `k` of the migrated rows is the `k`-th selected row, renamed and widened to the target table. */
  lemma MigratedRow(source: Tables, target: Tables, sourceTable: string, targetTable: string,
                    columnMap: Dict<string>, chunksize: nat, k: nat)
    requires chunksize > 0 && columnMap != []
    requires Select(source, sourceTable, Keys(columnMap)).Ok?
    requires AppendError(target, targetTable, TargetNames(columnMap)).None?
    requires k < |source[sourceTable].rows|
    ensures var o := Migrate(source, target, sourceTable, targetTable, columnMap, chunksize, NoFault);
            var base := if targetTable in target then |target[targetTable].rows| else 0;
            var t := o.tables[targetTable];
            && targetTable in o.tables
            && base + k < |t.rows|
            && t.rows[base + k] == Widen(RenameRow(SelectedRows(source, sourceTable, Keys(columnMap))[k], columnMap), t)
            && (targetTable in target ==> t.defaults == target[targetTable].defaults)
            && (targetTable !in target ==> t.columns == ColumnSet(TargetNames(columnMap)) && t.defaults == map[])
  {
    var cols := Keys(columnMap);
    var rows := SelectedRows(source, sourceTable, cols);
    var targets := TargetNames(columnMap);
    var o := Migrate(source, target, sourceTable, targetTable, columnMap, chunksize, NoFault);
    assert cols != [];
    MigrationOutcome(source, target, sourceTable, targetTable, columnMap, chunksize, NoFault);
    assert o.tables == AppendRows(target, targetTable, targets, RenameAll(rows, columnMap));
    AppendedRow(target, targetTable, targets, RenameAll(rows, columnMap), k);
  }

  /**
   * Row `k` of an append lands after the table's old rows, widened to the
   * table's columns (those of the existing table, or the appended columns
   * when the append creates it).
   */
  lemma AppendedRow(tables: Tables, name: string, columns: seq<string>, rows: seq<Row>, k: nat)
    requires k < |rows|
    ensures var t := AppendRows(tables, name, columns, rows);
            var base := if name in tables then |tables[name].rows| else 0;
            && name in t
            && t[name].columns == (if name in tables then tables[name].columns else ColumnSet(columns))
            && base + k < |t[name].rows|
            && t[name].defaults == (if name in tables then tables[name].defaults else map[])
            && t[name].rows[base + k] == Widen(rows[k], t[name])
  {
  }

  /** The start of chunk number `j` (counting from 0) of a non-empty result is a commit point. */
  lemma ChunkBoundary(rows: seq<Row>, n: nat, j: nat)
    requires n > 0 && rows != [] && j < NumBatches(|rows|, n)
    ensures Offset(j, n) < |rows| && Offset(j, n) in CommitPoints(|rows|, n)
  {
    ChunksShape(rows, n);
    OffsetMonotone(j, NumBatches(|rows|, n) - 1, n);
    OffsetAtLeast(j, n);
  }

  lemma {:induction false} OffsetMonotone(a: nat, b: nat, n: nat)
    requires a <= b
    ensures Offset(a, n) <= Offset(b, n)
    decreases b - a
  {
    if a < b {
      OffsetMonotone(a, b - 1, n);
    }
  }

  lemma {:induction false} OffsetAtLeast(j: nat, n: nat)
    requires n > 0
    ensures j <= Offset(j, n)
  {
    if j > 0 {
      OffsetAtLeast(j - 1, n);
    }
  }

  /** `Offset` is multiplication. */
  lemma {:induction false} OffsetIsProduct(j: nat, n: nat)
    ensures Offset(j, n) == j * n
  {
    if j > 0 {
      OffsetIsProduct(j - 1, n);
      assert j * n == (j - 1) * n + n;
    }
  }

  /**
   * The target tables are the old ones with the renamed rows up to some
   * commit point appended.
   */
  predicate WholeChunksWritten(tables: Tables, target: Tables, targetTable: string, columnMap: Dict<string>,
                               rows: seq<Row>, chunksize: nat)
    requires chunksize > 0
  {
    exists c :: c in CommitPoints(|rows|, chunksize) && c <= |rows|
             && tables == AppendRows(target, targetTable, TargetNames(columnMap), RenameAll(rows[..c], columnMap))
  }

  /**
   * A migration that fails has appended a whole number of chunks: the rows
   * it left in the target are the renamed source rows before the start of
   * some chunk, and so never the whole result.
   */
  lemma FailedMigrationCommitsWholeChunks(source: Tables, target: Tables, sourceTable: string, targetTable: string,
                                          columnMap: Dict<string>, chunksize: nat, fault: Fault)
    requires chunksize > 0
    ensures !Migrate(source, target, sourceTable, targetTable, columnMap, chunksize, fault).ok ==>
              WholeChunksWritten(Migrate(source, target, sourceTable, targetTable, columnMap, chunksize, fault).tables,
                                 target, targetTable, columnMap, SelectedRows(source, sourceTable, Keys(columnMap)), chunksize)
  {
    var o := Migrate(source, target, sourceTable, targetTable, columnMap, chunksize, fault);
    var rows := SelectedRows(source, sourceTable, Keys(columnMap));
    var targets := TargetNames(columnMap);
    if !o.ok {
      if Keys(columnMap) != [] && !FailsAt(fault, 0) && Select(source, sourceTable, Keys(columnMap)).Ok?
         && rows != [] && !(AppendError(target, targetTable, targets).Some? && !FailsAt(fault, 1))
      {
        assert o == Transfer(target, sourceTable, targetTable, columnMap, rows, chunksize, fault);
        assert Hits(fault, NumBatches(|rows|, chunksize) + 1);
        var c := Offset(fault.step - 1, chunksize);
        ChunkBoundary(rows, chunksize, fault.step - 1);
        assert o.tables == AppendRows(target, targetTable, targets, RenameAll(rows[..c], columnMap));
      } else {
        assert o.tables == target;
        assert 0 in CommitPoints(|rows|, chunksize) && 0 <= |rows|
            && o.tables == AppendRows(target, targetTable, targets, RenameAll(rows[..0], columnMap));
      }
    }
  }
}
