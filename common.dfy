/**
 * Shared vocabulary of the model: optional values, the storage faults an
 * operation may meet, Python dictionaries as their items in insertion order,
 * and the outcome messages the operations return beside their success flag.
 */
module Common {

  datatype Option<+T> = None | Some(value: T)

  /** A value, or the error a database statement raised instead. */
  datatype Result<+T> = Ok(value: T) | Err(error: DbError)

  /**
   * A storage failure, supplied from outside: the statement numbered `step`
   * (statements of one call are numbered from 0 in the order they are executed,
   * the commit included) raises an exception whose text is `error`.
   */
  datatype Fault = NoFault | FailAt(step: nat, error: string)

  /** True when the fault falls on one of the first `n` statements of a call. */
  predicate Hits(f: Fault, n: nat)
  {
    f.FailAt? && f.step < n
  }

  /** True when the fault falls on statement number `n`. */
  predicate FailsAt(f: Fault, n: nat)
  {
    f.FailAt? && f.step == n
  }

  /** The exception text of a fault (empty when there is none). */
  function ErrorText(f: Fault): string
  {
    if f.FailAt? then f.error else ""
  }

  /** What a database reports when it rejects a statement. */
  datatype DbError =
    | Raised(text: string)             // any error the store or driver raises
    | NoSuchTable(table: string)       // a statement names a table that is not there
    | NoSuchColumn(column: string)     // a statement names a column the table lacks
    | SyntaxError(statement: string)   // a statement the database cannot parse
    | UnboundParameter(name: string)   // a `:name` placeholder with no value supplied

  /**
   * The message half of the `(ok, message)` pairs. Each constructor stands for
   * one message template; the parameters are what the template interpolates.
   */
  datatype Message =
    | MappingSaved
    | MappingSaveFailed(error: string)
    | MappingDeleted(name: string)
    | MappingNotFound(name: string)
    | MappingDeleteFailed(name: string, error: string)
    | ConnectionSaved(name: string)
    | ConnectionSaveFailed(name: string, error: string)
    | ConnectionDeleted(name: string)
    | ConnectionNotFound(name: string)
    | ConnectionDeleteFailed(name: string, error: string)
    | ConnectionUpdated(originalName: string, newName: string)
    | ConnectionNameTaken(newName: string)
    | ConnectionUpdateFailed(originalName: string, error: string)
    | NoSourceColumns
    | Migrated(rows: nat, sourceTable: string, targetTable: string)
    | MigrationFailed(cause: DbError)
    | EmptyInsertData
    | NoRecordData
    | RecordInserted(table: string)
    | InsertFailed(cause: DbError)

  /** A Python dict with string keys, as the list of its items in insertion order. */
  type Dict<V> = seq<(string, V)>

  /** What every Python dict guarantees: no key occurs twice. */
  predicate DistinctKeys<V>(d: Dict<V>)
  {
    forall i, j :: 0 <= i < j < |d| ==> d[i].0 != d[j].0
  }

  /** The keys of a dict, in insertion order (`d.keys()`). */
  function Keys<V>(d: Dict<V>): (ks: seq<string>)
    ensures |ks| == |d|
    ensures forall i :: 0 <= i < |d| ==> ks[i] == d[i].0
  {
    if d == [] then [] else Keys(d[..|d| - 1]) + [d[|d| - 1].0]
  }

  /**
   * The dict built from a list of pairs, as `{k: v for k, v in pairs}` builds
   * it: a later pair overrides an earlier one with the same key.
   */
  function ToMap<V>(d: Dict<V>): (m: map<string, V>)
    ensures m.Keys == set i | 0 <= i < |d| :: d[i].0
  {
    if d == [] then map[]
    else
      var m := ToMap(d[..|d| - 1]);
      assert forall i :: 0 <= i < |d| - 1 ==> d[..|d| - 1][i] == d[i];
      m[d[|d| - 1].0 := d[|d| - 1].1]
  }

  /** An item that no later item overrides survives in `ToMap`. */
  lemma {:induction false} ToMapLatest<V>(d: Dict<V>, i: nat)
    requires i < |d|
    requires forall j :: i < j < |d| ==> d[j].0 != d[i].0
    ensures d[i].0 in ToMap(d) && ToMap(d)[d[i].0] == d[i].1
  {
    var n := |d| - 1;
    if i < n {
      assert d[..n][i] == d[i];
      assert forall j :: i < j < n ==> d[..n][j] == d[j];
      ToMapLatest(d[..n], i);
    }
  }

  /** In a dict without repeated keys every item survives in `ToMap`. */
  lemma ToMapAt<V>(d: Dict<V>, i: nat)
    requires DistinctKeys(d) && i < |d|
    ensures d[i].0 in ToMap(d) && ToMap(d)[d[i].0] == d[i].1
  {
    ToMapLatest(d, i);
  }

  /** `d.get(k)`: the value under `k`, or None when `k` is absent. */
  function Get<V>(m: map<string, V>, k: string): (r: Option<V>)
    ensures r.Some? <==> k in m
    ensures r.Some? ==> r.value == m[k]
  {
    if k in m then Some(m[k]) else None
  }

  /** Position of the first `c` in `s`, or `|s|` when there is none. */
  function Find(s: string, c: char): (i: nat)
    ensures i <= |s|
    ensures forall k :: 0 <= k < i ==> s[k] != c
    ensures i < |s| ==> s[i] == c
  {
    if s == [] then 0 else if s[0] == c then 0 else 1 + Find(s[1..], c)
  }

  /** The first `c` is at `i` when no earlier character is `c` and `s[i]` is (or `i` is the end). */
  lemma FindUnique(s: string, c: char, i: nat)
    requires i <= |s|
    requires forall k :: 0 <= k < i ==> s[k] != c
    requires i < |s| ==> s[i] == c
    ensures Find(s, c) == i
  {
  }
}
