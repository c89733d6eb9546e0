/**
 * Inserting one record: the parameterised INSERT statement built from a dict
 * of column values, and running it against a database. The statement is
 * text; the database reads it back with `ParseInsert`, which recovers the
 * table, the columns and the placeholders whenever the names contain none of
 * the characters that delimit them. `InsertTextParses` proves that round trip.
 */
module Records {
  import opened Common
  import opened Migration

  /** `", ".join(items)`. */
  function Join(items: seq<string>): string
  {
    if |items| == 0 then ""
    else if |items| == 1 then items[0]
    else items[0] + ", " + Join(items[1..])
  }

  /** The `:key` placeholder of each key, in order. */
  function Placeholders(keys: seq<string>): (ps: seq<string>)
    ensures |ps| == |keys|
    ensures forall i :: 0 <= i < |keys| ==> ps[i] == ":" + keys[i]
  {
    seq(|keys|, i requires 0 <= i < |keys| => ":" + keys[i])
  }

  const InsertPrefix := "INSERT INTO "
  const ValuesInfix := ") VALUES ("

  /** `INSERT INTO table (k1, ..., kn) VALUES (:k1, ..., :kn)`. */
  function InsertText(table: string, keys: seq<string>): string
  {
    InsertPrefix + table + " (" + Join(keys) + ValuesInfix + Join(Placeholders(keys)) + ")"
  }

  /** Either the statement with its parameters, or the message saying there is nothing to insert. */
  datatype Generated<V> = Generated(statement: string, params: Dict<V>) | NotGenerated(message: Message)

  /**
   * Builds the INSERT for a dict: the columns and the placeholders follow the
   * dict's key order, and the dict itself is passed on as the parameters. An
   * empty dict gives no statement; any other gives a non-empty one, which
   * reads back as the table, the keys and their placeholders when the names
   * hold no delimiter of the statement.
   */
  function GenerateInsertStatement<V>(table: string, data: Dict<V>): (g: Generated<V>)
    ensures data == [] <==> g.NotGenerated?
    ensures g.NotGenerated? ==> g.message == EmptyInsertData
    ensures g.Generated? ==> g.params == data && |g.statement| > |InsertPrefix| + |table|
    ensures g.Generated? && PlainTable(table) && (forall i :: 0 <= i < |data| ==> PlainColumn(data[i].0)) ==>
              ParseInsert(g.statement) == Some((table, Keys(data), Placeholders(Keys(data))))
  {
    if data == [] then NotGenerated(EmptyInsertData)
    else if PlainTable(table) && (forall i :: 0 <= i < |data| ==> PlainColumn(data[i].0)) then
      GeneratedParses(table, data);
      Generated(InsertText(table, Keys(data)), data)
    else Generated(InsertText(table, Keys(data)), data)
  }

  // ---------------------------------------------------------------------
  // Reading a statement back

  /** Splits a `", "`-joined list back into its items. */
  function Unjoin(s: string): seq<string>
    decreases |s|
  {
    var i := Find(s, ',');
    if i == |s| then [s]
    else if i + 1 < |s| && s[i + 1] == ' ' then [s[..i]] + Unjoin(s[i + 2..])
    else [s[..i]] + Unjoin(s[i + 1..])
  }

  /**
   * How the database reads an INSERT of this shape: the table before ` (`,
   * the column list up to the first `)`, and the value list between
   * `) VALUES (` and the closing `)`.
   */
  function ParseInsert(s: string): Option<(string, seq<string>, seq<string>)>
  {
    if |s| < |InsertPrefix| || s[..|InsertPrefix|] != InsertPrefix then None
    else ParseTarget(s[|InsertPrefix|..])
  }

  /** The part after `INSERT INTO `: the table name, then the two lists. */
  function ParseTarget(rest: string): Option<(string, seq<string>, seq<string>)>
  {
    var i := Find(rest, '(');
    if i == 0 || i == |rest| || rest[i - 1] != ' ' then None
    else match ParseLists(rest[i + 1..])
      case None => None
      case Some((cols, vals)) => Some((rest[..i - 1], cols, vals))
  }

  /** The part after the first `(`: the column list, `) VALUES (`, the value list, `)`. */
  function ParseLists(after: string): Option<(seq<string>, seq<string>)>
  {
    var j := Find(after, ')');
    var tail := after[j..];
    if |tail| < |ValuesInfix| + 1 || tail[..|ValuesInfix|] != ValuesInfix || tail[|tail| - 1] != ')' then None
    else Some((Unjoin(after[..j]), Unjoin(tail[|ValuesInfix|..|tail| - 1])))
  }

  /** The column-value pairs of a row, in column order. */
  function Zip(cols: seq<string>, values: seq<Value>): (ps: Dict<Value>)
    requires |cols| == |values|
    ensures |ps| == |cols|
    ensures forall i :: 0 <= i < |cols| ==> ps[i] == (cols[i], values[i])
  {
    seq(|cols|, i requires 0 <= i < |cols| => (cols[i], values[i]))
  }

  /** The value of each `:name` placeholder. */
  function Bind(placeholders: seq<string>, params: map<string, Value>): (r: Result<seq<Value>>)
    ensures r.Ok? ==> |r.value| == |placeholders|
  {
    if placeholders == [] then Ok([])
    else
      var p := placeholders[0];
      if |p| == 0 || p[0] != ':' then Err(SyntaxError(p))
      else if p[1..] !in params then Err(UnboundParameter(p[1..]))
      else match Bind(placeholders[1..], params)
        case Err(e) => Err(e)
        case Ok(vs) => Ok([params[p[1..]]] + vs)
  }

  /**
   * Running an INSERT with named parameters: the table must exist and have
   * every listed column; the new row holds the bound values under those
   * columns and each other column's default.
   */
  function ExecuteInsert(tables: Tables, statement: string, params: Dict<Value>): Result<Tables>
  {
    match ParseInsert(statement)
    case None => Err(SyntaxError(statement))
    case Some((table, cols, placeholders)) =>
      if |cols| != |placeholders| then Err(SyntaxError(statement))
      else InsertRow(tables, table, cols, placeholders, params)
  }

  /** The effect of a parsed INSERT whose column and value lists have the same length. */
  function InsertRow(tables: Tables, table: string, cols: seq<string>, placeholders: seq<string>,
                     params: Dict<Value>): Result<Tables>
    requires |cols| == |placeholders|
  {
    if table !in tables then Err(NoSuchTable(table))
    else match MissingColumn(cols, tables[table].columns)
      case Some(c) => Err(NoSuchColumn(c))
      case None =>
        match Bind(placeholders, ToMap(params))
        case Err(e) => Err(e)
        case Ok(values) =>
          var t := tables[table];
          Ok(tables[table := t.(rows := t.rows + [Widen(ToMap(Zip(cols, values)), t)])])
  }

  // ---------------------------------------------------------------------
  // Inserting a record

  /**
   * Inserts one record: an empty dict is refused before any statement runs;
   * otherwise the generated statement is executed (statement 0) and
   * committed (statement 1), and a failure of either leaves the table as it
   * was.
   */
  method InsertRecord(db: Database, table: string, data: Dict<Value>, fault: Fault) returns (ok: bool, msg: Message)
    modifies db
    ensures data == [] ==> !ok && msg == NoRecordData && db.tables == old(db.tables)
    ensures data != [] ==>
              var r := ExecuteInsert(old(db.tables), InsertText(table, Keys(data)), data);
              && (ok <==> !Hits(fault, 2) && r.Ok?)
              && (ok ==> msg == RecordInserted(table) && db.tables == r.value)
              && (!ok ==> db.tables == old(db.tables)
                          && msg == InsertFailed(if FailsAt(fault, 0) then Raised(fault.error)
                                                 else if r.Err? then r.error
                                                 else Raised(fault.error)))
  {
    if data == [] {
      return false, NoRecordData;
    }
    var generated := GenerateInsertStatement(table, data);
    var statement, params := generated.statement, generated.params;
    if FailsAt(fault, 0) {
      return false, InsertFailed(Raised(fault.error));
    }
    var r := ExecuteInsert(db.tables, statement, params);
    if r.Err? {
      return false, InsertFailed(r.error);
    }
    if FailsAt(fault, 1) {
      return false, InsertFailed(Raised(fault.error));
    }
    db.tables := r.value;
    return true, RecordInserted(table);
  }

  // ---------------------------------------------------------------------
  // Facts

  /** Names that the delimiters of an INSERT cannot be confused with. */
  predicate PlainColumn(k: string)
  {
    ',' !in k && ')' !in k
  }

  predicate PlainTable(t: string)
  {
    '(' !in t
  }

  /** A character that is neither in the items nor in the separator is not in the joined text. */
  lemma {:induction false} JoinAvoids(items: seq<string>, c: char)
    requires c != ',' && c != ' '
    requires forall i :: 0 <= i < |items| ==> c !in items[i]
    ensures c !in Join(items)
  {
    if |items| > 1 {
      JoinAvoids(items[1..], c);
    }
  }

  /** Splitting stops at the first comma: an item without one comes back whole, followed by the rest. */
  lemma UnjoinStep(first: string, rest: string)
    requires ',' !in first
    ensures Unjoin(first) == [first]
    ensures Unjoin(first + ", " + rest) == [first] + Unjoin(rest)
  {
    FindUnique(first, ',', |first|);
    var s := first + ", " + rest;
    FindUnique(s, ',', |first|);
    assert s[..|first|] == first && s[|first| + 1] == ' ' && s[|first| + 2..] == rest;
  }

  /** Joining with `", "` and splitting again gives back the items, when none holds a comma. */
  lemma {:induction false} JoinRoundTrip(items: seq<string>)
    requires |items| >= 1
    requires forall i :: 0 <= i < |items| ==> ',' !in items[i]
    ensures Unjoin(Join(items)) == items
  {
    if |items| == 1 {
      UnjoinStep(items[0], "");
    } else {
      UnjoinStep(items[0], Join(items[1..]));
      JoinRoundTrip(items[1..]);
      assert items == [items[0]] + items[1..];
    }
  }

  lemma ParseListsPieces(cols: string, vals: string)
    requires ')' !in cols
    ensures ParseLists(cols + ValuesInfix + vals + ")") == Some((Unjoin(cols), Unjoin(vals)))
  {
    var tail := ValuesInfix + vals + ")";
    var after := cols + ValuesInfix + vals + ")";
    assert after == cols + tail;
    FindUnique(after, ')', |cols|);
    assert after[|cols|..] == tail && after[..|cols|] == cols;
    assert tail[..|ValuesInfix|] == ValuesInfix && tail[|ValuesInfix|..|tail| - 1] == vals;
  }

  lemma ParseTargetPieces(table: string, after: string)
    requires '(' !in table
    ensures ParseTarget(table + " (" + after)
         == match ParseLists(after) case None => None case Some((cols, vals)) => Some((table, cols, vals))
  {
    var rest := table + " (" + after;
    FindUnique(rest, '(', |table| + 1);
    assert rest[|table| + 2..] == after && rest[..|table|] == table;
  }

  /** An INSERT assembled from a table, a column list and a value list reads back as those pieces. */
  lemma ParsePieces(table: string, cols: string, vals: string)
    requires '(' !in table && ')' !in cols
    ensures ParseInsert(InsertPrefix + table + " (" + cols + ValuesInfix + vals + ")")
         == Some((table, Unjoin(cols), Unjoin(vals)))
  {
    var after := cols + ValuesInfix + vals + ")";
    var rest := table + " (" + after;
    var s := InsertPrefix + table + " (" + cols + ValuesInfix + vals + ")";
    assert s == InsertPrefix + rest;
    assert s[..|InsertPrefix|] == InsertPrefix && s[|InsertPrefix|..] == rest;
    ParseListsPieces(cols, vals);
    ParseTargetPieces(table, after);
  }

  /**
   * The generated statement reads back as the table, the keys in dict order
   * and one `:key` placeholder per key, when the table name holds no `(` and
   * the keys hold no `,` or `)`.
   */
  lemma InsertTextParses(table: string, keys: seq<string>)
    requires PlainTable(table) && |keys| >= 1
    requires forall i :: 0 <= i < |keys| ==> PlainColumn(keys[i])
    ensures ParseInsert(InsertText(table, keys)) == Some((table, keys, Placeholders(keys)))
  {
    var ps := Placeholders(keys);
    JoinAvoids(keys, ')');
    ParsePieces(table, Join(keys), Join(ps));
    JoinRoundTrip(keys);
    forall i | 0 <= i < |ps| ensures ',' !in ps[i] {
      assert ps[i] == [':'] + keys[i];
    }
    JoinRoundTrip(ps);
  }

  /** The `:key` placeholders bind to the values of their keys. */
  lemma {:induction false} BindPlaceholders(keys: seq<string>, params: map<string, Value>)
    requires forall i :: 0 <= i < |keys| ==> keys[i] in params
    ensures var r := Bind(Placeholders(keys), params);
            && r.Ok? && |r.value| == |keys|
            && forall i :: 0 <= i < |keys| ==> r.value[i] == params[keys[i]]
  {
    if keys != [] {
      var ps := Placeholders(keys);
      assert ps[1..] == Placeholders(keys[1..]);
      assert ps[0][1..] == keys[0];
      BindPlaceholders(keys[1..], params);
    }
  }

  /** Binding the placeholders of a dict's keys against the dict gives back the dict's values. */
  lemma BindDict(data: Dict<Value>)
    requires DistinctKeys(data)
    ensures var r := Bind(Placeholders(Keys(data)), ToMap(data));
            r.Ok? && |r.value| == |data| && Zip(Keys(data), r.value) == data
  {
    var keys := Keys(data);
    var params := ToMap(data);
    forall i | 0 <= i < |keys| ensures keys[i] in params && params[keys[i]] == data[i].1 {
      ToMapAt(data, i);
    }
    BindPlaceholders(keys, params);
  }

  /** The three outcomes of inserting a dict's row into a table. */
  lemma InsertRowOutcome(tables: Tables, table: string, data: Dict<Value>)
    requires DistinctKeys(data)
    ensures var r := InsertRow(tables, table, Keys(data), Placeholders(Keys(data)), data);
            && (table !in tables ==> r == Err(NoSuchTable(table)))
            && (table in tables && MissingColumn(Keys(data), tables[table].columns).Some? ==>
                  r == Err(NoSuchColumn(MissingColumn(Keys(data), tables[table].columns).value)))
            && (table in tables && MissingColumn(Keys(data), tables[table].columns).None? ==>
                  r == Ok(tables[table := tables[table].(rows := tables[table].rows
                                                         + [Widen(ToMap(data), tables[table])])]))
  {
    BindDict(data);
  }

  /** The statement built for a dict of plain names reads back as its table, keys and placeholders. */
  lemma GeneratedParses<V>(table: string, data: Dict<V>)
    requires data != [] && PlainTable(table)
    requires forall i :: 0 <= i < |data| ==> PlainColumn(data[i].0)
    ensures ParseInsert(InsertText(table, Keys(data))) == Some((table, Keys(data), Placeholders(Keys(data))))
  {
    var keys := Keys(data);
    forall i | 0 <= i < |keys| ensures PlainColumn(keys[i]) {
      assert keys[i] == data[i].0;
    }
    InsertTextParses(table, keys);
  }

  /** The generated statement runs as the insert of the dict's keys and placeholders. */
  lemma ExecuteGenerated(tables: Tables, table: string, data: Dict<Value>)
    requires data != [] && PlainTable(table)
    requires forall i :: 0 <= i < |data| ==> PlainColumn(data[i].0)
    ensures ExecuteInsert(tables, InsertText(table, Keys(data)), data)
         == InsertRow(tables, table, Keys(data), Placeholders(Keys(data)), data)
  {
    GeneratedParses(table, data);
  }

  /**
   * Inserting a non-empty dict of plain names into a table that has all its
   * keys as columns adds exactly one row at the end: the dict's values under
   * its keys, and its default under every other column; no other table
   * changes. A missing table or column is reported instead.
   */
  lemma InsertAddsRecord(tables: Tables, table: string, data: Dict<Value>)
    requires DistinctKeys(data) && data != [] && PlainTable(table)
    requires forall i :: 0 <= i < |data| ==> PlainColumn(data[i].0)
    ensures var r := ExecuteInsert(tables, InsertText(table, Keys(data)), data);
            && (table !in tables ==> r == Err(NoSuchTable(table)))
            && (table in tables && MissingColumn(Keys(data), tables[table].columns).Some? ==>
                  r == Err(NoSuchColumn(MissingColumn(Keys(data), tables[table].columns).value)))
            && (table in tables && MissingColumn(Keys(data), tables[table].columns).None? ==>
                  r == Ok(tables[table := tables[table].(rows := tables[table].rows
                                                         + [Widen(ToMap(data), tables[table])])])
                  && InsertedRow(Widen(ToMap(data), tables[table]), tables[table], data))
  {
    ExecuteGenerated(tables, table, data);
    InsertRowOutcome(tables, table, data);
    if table in tables && MissingColumn(Keys(data), tables[table].columns).None? {
      WidenedRecord(tables[table], data);
    }
  }

  /** The row a table stores for a record: the record's values under its keys, defaults elsewhere. */
  predicate InsertedRow(row: Row, t: Table, data: Dict<Value>)
  {
    && row.Keys == t.columns
    && (forall i :: 0 <= i < |data| ==> data[i].0 in row && row[data[i].0] == data[i].1)
    && (forall c :: c in row && c !in Keys(data) ==> row[c] == ColumnDefault(t, c))
  }

  /** A record whose keys are all columns of the table is stored as its values plus the defaults. */
  lemma WidenedRecord(t: Table, data: Dict<Value>)
    requires DistinctKeys(data) && MissingColumn(Keys(data), t.columns).None?
    ensures InsertedRow(Widen(ToMap(data), t), t, data)
  {
    var row := Widen(ToMap(data), t);
    var keys := Keys(data);
    forall i | 0 <= i < |data| ensures data[i].0 in row && row[data[i].0] == data[i].1 {
      ToMapAt(data, i);
      assert keys[i] == data[i].0 && keys[i] in keys;
    }
  }
}
