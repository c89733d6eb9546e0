/**
 * The metadata catalog as a value: the three relations `mapping_configs`,
 * `column_mappings` and `saved_connections` (each a sequence of rows in rowid
 * order) together with the three AUTOINCREMENT counters that hand out their
 * ids. The functions below give the effect of each catalog operation that
 * succeeds, and of each query; the lemmas state what the catalog promises.
 * The class in metadata_store.dfy performs the same operations statement by
 * statement and is proved to reach exactly these states.
 */
module Catalog {
  import opened Common
  import opened LexOrder

  /** A row of `mapping_configs` (its `created_at` column is not modelled). */
  datatype MappingHeader = MappingHeader(
    id: nat, name: string,
    sourceDbUrl: string, targetDbUrl: string,
    sourceTable: string, targetTable: string)

  /** A row of `column_mappings`: one source column mapped to one target column. */
  datatype DetailRow = DetailRow(id: nat, configId: nat, sourceColumn: string, targetColumn: string)

  /** The columns of `saved_connections` besides `id` and `name`. */
  datatype Settings = Settings(
    dbType: string,
    host: Option<string>, port: Option<string>, dbName: Option<string>,
    user: Option<string>, password: Option<string>)

  /** A row of `saved_connections` (its `created_at` column is not modelled). */
  datatype ConnectionRow = ConnectionRow(id: nat, name: string, settings: Settings)

  /** The header dict that loading a mapping returns. */
  datatype MappingInfo = MappingInfo(
    name: string, sourceDbUrl: string, targetDbUrl: string,
    sourceTable: string, targetTable: string)

  /** The dict that loading a saved connection returns. */
  datatype ConnectionInfo = ConnectionInfo(name: string, settings: Settings)

  /** The whole metadata store. */
  datatype Store = Store(
    configs: seq<MappingHeader>,
    details: seq<DetailRow>,
    connections: seq<ConnectionRow>,
    nextConfigId: nat, nextDetailId: nat, nextConnectionId: nat)

  /** The store right after its three relations are first created. */
  function EmptyStore(): (s: Store)
    ensures Valid(s)
  {
    Store([], [], [], 1, 1, 1)
  }

  // ---------------------------------------------------------------------
  // Invariants

  function ConfigIds(cs: seq<MappingHeader>): set<nat>
  {
    set h | h in cs :: h.id
  }

  /**
   * What the schema and AUTOINCREMENT guarantee: names are UNIQUE, ids are
   * distinct and below the counter (ids start at 1 and are never reused), and
   * no detail row points at an id that has not been handed out yet.
   */
  predicate WellFormed(s: Store)
  {
    && 1 <= s.nextConfigId && 1 <= s.nextDetailId && 1 <= s.nextConnectionId
    && UniqueConfigs(s.configs) && ConfigIdsBelow(s.configs, s.nextConfigId)
    && DetailsBelow(s.details, s.nextDetailId, s.nextConfigId)
    && UniqueConnections(s.connections) && ConnectionIdsBelow(s.connections, s.nextConnectionId)
  }

  predicate UniqueConfigs(cs: seq<MappingHeader>)
  {
    forall i, j :: 0 <= i < j < |cs| ==> cs[i].name != cs[j].name && cs[i].id != cs[j].id
  }

  predicate ConfigIdsBelow(cs: seq<MappingHeader>, next: nat)
  {
    forall i :: 0 <= i < |cs| ==> 0 < cs[i].id < next
  }

  predicate DetailsBelow(ds: seq<DetailRow>, nextDetail: nat, nextConfig: nat)
  {
    forall d :: d in ds ==> 0 < d.id < nextDetail && d.configId < nextConfig
  }

  predicate UniqueConnections(cs: seq<ConnectionRow>)
  {
    forall i, j :: 0 <= i < j < |cs| ==> cs[i].name != cs[j].name && cs[i].id != cs[j].id
  }

  predicate ConnectionIdsBelow(cs: seq<ConnectionRow>, next: nat)
  {
    forall i :: 0 <= i < |cs| ==> 0 < cs[i].id < next
  }

  /** The foreign key of `column_mappings`: every detail row belongs to a header. */
  predicate Owned(s: Store)
  {
    forall d :: d in s.details ==> d.configId in ConfigIds(s.configs)
  }

  predicate Valid(s: Store)
  {
    WellFormed(s) && Owned(s)
  }

  // ---------------------------------------------------------------------
  // Queries (the SELECT statements)

  /** `SELECT id FROM mapping_configs WHERE name = :name`, as the row's position. */
  function ConfigIndex(cs: seq<MappingHeader>, name: string): (r: Option<nat>)
    ensures r.Some? ==> r.value < |cs| && cs[r.value].name == name
    ensures r.None? ==> forall i :: 0 <= i < |cs| ==> cs[i].name != name
  {
    if cs == [] then None
    else if cs[0].name == name then Some(0)
    else match ConfigIndex(cs[1..], name)
      case Some(i) => Some(i + 1)
      case None => None
  }

  /** `SELECT id FROM saved_connections WHERE name = :name`, as the row's position. */
  function ConnectionIndex(cs: seq<ConnectionRow>, name: string): (r: Option<nat>)
    ensures r.Some? ==> r.value < |cs| && cs[r.value].name == name
    ensures r.None? ==> forall i :: 0 <= i < |cs| ==> cs[i].name != name
  {
    if cs == [] then None
    else if cs[0].name == name then Some(0)
    else match ConnectionIndex(cs[1..], name)
      case Some(i) => Some(i + 1)
      case None => None
  }

  predicate HasMapping(s: Store, name: string)
  {
    ConfigIndex(s.configs, name).Some?
  }

  predicate HasConnection(s: Store, name: string)
  {
    ConnectionIndex(s.connections, name).Some?
  }

  /** `SELECT source_column, target_column FROM column_mappings WHERE config_id = :id`, in rowid order. */
  function PairsOf(ds: seq<DetailRow>, id: nat): Dict<string>
  {
    if ds == [] then []
    else (if ds[0].configId == id then [(ds[0].sourceColumn, ds[0].targetColumn)] else [])
         + PairsOf(ds[1..], id)
  }

  /**
   * Loading a mapping: `(None, None)` for an unknown name, otherwise the header
   * dict and the dict built from the detail rows of that header.
   */
  function LoadMapping(s: Store, name: string): (Option<MappingInfo>, Option<map<string, string>>)
  {
    match ConfigIndex(s.configs, name)
    case None => (None, None)
    case Some(k) =>
      var h := s.configs[k];
      (Some(MappingInfo(name, h.sourceDbUrl, h.targetDbUrl, h.sourceTable, h.targetTable)),
       Some(ToMap(PairsOf(s.details, h.id))))
  }

  /** `SELECT name FROM mapping_configs ORDER BY name`. */
  function MappingNames(s: Store): seq<string>
  {
    SortNames(seq(|s.configs|, i requires 0 <= i < |s.configs| => s.configs[i].name))
  }

  /** Loading a saved connection: None for an unknown name. */
  function LoadConnection(s: Store, name: string): Option<ConnectionInfo>
  {
    match ConnectionIndex(s.connections, name)
    case None => None
    case Some(k) => Some(ConnectionInfo(s.connections[k].name, s.connections[k].settings))
  }

  /** `SELECT name FROM saved_connections ORDER BY name`. */
  function ConnectionNames(s: Store): seq<string>
  {
    SortNames(seq(|s.connections|, i requires 0 <= i < |s.connections| => s.connections[i].name))
  }

  // ---------------------------------------------------------------------
  // Statements and the effect of each successful operation

  /** A mapping entry is stored only when both column names are non-empty. */
  predicate Kept(p: (string, string))
  {
    p.0 != "" && p.1 != ""
  }

  /** The entries among the first `n` of a mapping dict that get a detail row, in dict order. */
  function PersistedUpTo(m: Dict<string>, n: nat): (r: Dict<string>)
    requires n <= |m|
    ensures |r| <= n
  {
    if n == 0 then []
    else PersistedUpTo(m, n - 1) + (if Kept(m[n - 1]) then [m[n - 1]] else [])
  }

  /** The entries of a mapping dict that get a detail row, in dict order. */
  function Persisted(m: Dict<string>): (r: Dict<string>)
    ensures |r| <= |m|
  {
    PersistedUpTo(m, |m|)
  }

  /** Among the first `n` entries, the persisted ones are exactly the kept ones. */
  lemma {:induction false} PersistedUpToMembers(m: Dict<string>, n: nat)
    requires n <= |m|
    ensures forall p :: p in PersistedUpTo(m, n) <==> Kept(p) && exists j :: 0 <= j < n && m[j] == p
  {
    if n > 0 {
      PersistedUpToMembers(m, n - 1);
    }
  }

  /** The persisted entries are exactly the kept entries of the dict. */
  lemma PersistedMembers(m: Dict<string>)
    ensures forall p :: p in Persisted(m) <==> p in m && Kept(p)
  {
    PersistedUpToMembers(m, |m|);
    forall p | p in m ensures exists j :: 0 <= j < |m| && m[j] == p {
      var j :| 0 <= j < |m| && m[j] == p;
    }
  }

  /** Looking at more entries of a dict persists at least as many. */
  lemma {:induction false} PersistedUpToGrows(m: Dict<string>, i: nat, n: nat)
    requires i <= n <= |m|
    ensures |PersistedUpTo(m, i)| <= |PersistedUpTo(m, n)|
    decreases n - i
  {
    if i < n {
      PersistedUpToGrows(m, i + 1, n);
    }
  }

  /** The detail rows inserted for `pairs` under header `id`, ids counting up from `start`. */
  function NewRows(id: nat, start: nat, pairs: Dict<string>): (r: seq<DetailRow>)
    ensures |r| == |pairs|
  {
    if pairs == [] then []
    else
      var last := pairs[|pairs| - 1];
      NewRows(id, start, pairs[..|pairs| - 1]) + [DetailRow(start + |pairs| - 1, id, last.0, last.1)]
  }

  /** The inserted rows belong to header `id` and carry the ids `start`, `start + 1`, .... */
  lemma {:induction false} NewRowsMembers(id: nat, start: nat, pairs: Dict<string>)
    ensures forall d :: d in NewRows(id, start, pairs) ==> d.configId == id && start <= d.id < start + |pairs|
  {
    if pairs != [] {
      NewRowsMembers(id, start, pairs[..|pairs| - 1]);
    }
  }

  /** Inserting one more detail row gives it the next id. */
  lemma NewRowsStep(id: nat, start: nat, pairs: Dict<string>, p: (string, string))
    ensures NewRows(id, start, pairs + [p]) == NewRows(id, start, pairs) + [DetailRow(start + |pairs|, id, p.0, p.1)]
  {
    assert (pairs + [p])[..|pairs|] == pairs;
  }

  /** `DELETE FROM column_mappings WHERE config_id = :id`. */
  function WithoutConfig(ds: seq<DetailRow>, id: nat): (r: seq<DetailRow>)
    ensures forall d :: d in r <==> d in ds && d.configId != id
  {
    if ds == [] then []
    else (if ds[0].configId == id then [] else [ds[0]]) + WithoutConfig(ds[1..], id)
  }

  /**
   * Saving a mapping: an existing header keeps its id and position, gets the
   * new URLs and tables, and loses all its detail rows; a new name gets a new
   * header with the next id. Then one detail row per kept entry.
   */
  function SaveMapping(s: Store, name: string, sourceDbUrl: string, targetDbUrl: string,
                       sourceTable: string, targetTable: string, mappings: Dict<string>): Store
  {
    var rows := Persisted(mappings);
    match ConfigIndex(s.configs, name)
    case Some(k) =>
      var id := s.configs[k].id;
      s.(configs := s.configs[k := MappingHeader(id, name, sourceDbUrl, targetDbUrl, sourceTable, targetTable)],
         details := WithoutConfig(s.details, id) + NewRows(id, s.nextDetailId, rows),
         nextDetailId := s.nextDetailId + |rows|)
    case None =>
      var id := s.nextConfigId;
      s.(configs := s.configs + [MappingHeader(id, name, sourceDbUrl, targetDbUrl, sourceTable, targetTable)],
         nextConfigId := id + 1,
         details := s.details + NewRows(id, s.nextDetailId, rows),
         nextDetailId := s.nextDetailId + |rows|)
  }

  /** Deleting a mapping: its header goes, and with it (ON DELETE CASCADE) its detail rows. */
  function DeleteMapping(s: Store, name: string): Store
  {
    match ConfigIndex(s.configs, name)
    case None => s
    case Some(k) =>
      s.(configs := s.configs[..k] + s.configs[k + 1..],
         details := WithoutConfig(s.details, s.configs[k].id))
  }

  /** The settings read from a parameter dict with `params.get(...)`. */
  function SettingsFrom(dbType: string, params: map<string, string>): Settings
  {
    Settings(dbType, Get(params, "host"), Get(params, "port"), Get(params, "db_name"),
             Get(params, "user"), Get(params, "password"))
  }

  /** Saving a connection: update the row of that name in place, or insert a new one. */
  function SaveConnection(s: Store, name: string, dbType: string, params: map<string, string>): Store
  {
    match ConnectionIndex(s.connections, name)
    case Some(k) =>
      s.(connections := s.connections[k := s.connections[k].(settings := SettingsFrom(dbType, params))])
    case None =>
      s.(connections := s.connections + [ConnectionRow(s.nextConnectionId, name, SettingsFrom(dbType, params))],
         nextConnectionId := s.nextConnectionId + 1)
  }

  function DeleteConnection(s: Store, name: string): Store
  {
    match ConnectionIndex(s.connections, name)
    case None => s
    case Some(k) => s.(connections := s.connections[..k] + s.connections[k + 1..])
  }

  /** What the checks of an update decide, in the order they are made. */
  datatype UpdateVerdict = OriginalMissing | NewNameTaken | UpdateAllowed

  function CheckUpdate(s: Store, originalName: string, newName: string): UpdateVerdict
  {
    if !HasConnection(s, originalName) then OriginalMissing
    else if originalName != newName && HasConnection(s, newName) then NewNameTaken
    else UpdateAllowed
  }

  /** Updating (and possibly renaming) a connection: the same row gets the new name and settings. */
  function UpdateConnection(s: Store, originalName: string, newName: string,
                            dbType: string, params: map<string, string>): Store
  {
    if CheckUpdate(s, originalName, newName) != UpdateAllowed then s
    else
      var k := ConnectionIndex(s.connections, originalName).value;
      s.(connections := s.connections[k := ConnectionRow(s.connections[k].id, newName, SettingsFrom(dbType, params))])
  }

  // ---------------------------------------------------------------------
  // Facts about the detail relation

  lemma {:induction false} PairsOfAppend(a: seq<DetailRow>, b: seq<DetailRow>, id: nat)
    ensures PairsOf(a + b, id) == PairsOf(a, id) + PairsOf(b, id)
  {
    if a == [] {
      assert a + b == b;
    } else {
      var h := if a[0].configId == id then [(a[0].sourceColumn, a[0].targetColumn)] else [];
      assert (a + b)[0] == a[0] && (a + b)[1..] == a[1..] + b;
      assert PairsOf(a + b, id) == h + PairsOf(a[1..] + b, id);
      PairsOfAppend(a[1..], b, id);
      assert h + (PairsOf(a[1..], id) + PairsOf(b, id)) == (h + PairsOf(a[1..], id)) + PairsOf(b, id);
    }
  }

  lemma {:induction false} PairsOfAbsent(ds: seq<DetailRow>, id: nat)
    requires forall d :: d in ds ==> d.configId != id
    ensures PairsOf(ds, id) == []
  {
    if ds != [] {
      assert ds[0] in ds;
      PairsOfAbsent(ds[1..], id);
    }
  }

  lemma {:induction false} PairsOfWithout(ds: seq<DetailRow>, id: nat, other: nat)
    ensures PairsOf(WithoutConfig(ds, id), other) == if other == id then [] else PairsOf(ds, other)
  {
    if ds != [] {
      var head := if ds[0].configId == id then [] else [ds[0]];
      PairsOfWithout(ds[1..], id, other);
      PairsOfAppend(head, WithoutConfig(ds[1..], id), other);
    }
  }

  lemma {:induction false} PairsOfNewRows(id: nat, start: nat, pairs: Dict<string>, other: nat)
    ensures PairsOf(NewRows(id, start, pairs), other) == if other == id then pairs else []
  {
    if pairs != [] {
      var init := pairs[..|pairs| - 1];
      var last := pairs[|pairs| - 1];
      var row := DetailRow(start + |pairs| - 1, id, last.0, last.1);
      assert NewRows(id, start, pairs) == NewRows(id, start, init) + [row];
      PairsOfNewRows(id, start, init, other);
      PairsOfAppend(NewRows(id, start, init), [row], other);
      assert PairsOf([row], other) == if other == id then [last] else [];
      assert init + [last] == pairs;
    }
  }

  /** Persisting a dict keeps its keys distinct. */
  lemma PersistedDistinct(m: Dict<string>)
    requires DistinctKeys(m)
    ensures DistinctKeys(Persisted(m))
  {
    PersistedUpToDistinct(m, |m|);
  }

  lemma {:induction false} PersistedUpToDistinct(m: Dict<string>, n: nat)
    requires DistinctKeys(m) && n <= |m|
    ensures DistinctKeys(PersistedUpTo(m, n))
  {
    if n > 0 {
      PersistedUpToDistinct(m, n - 1);
      PersistedUpToMembers(m, n - 1);
      var p := PersistedUpTo(m, n - 1);
      forall i | 0 <= i < |p| ensures p[i].0 != m[n - 1].0 {
        assert p[i] in p;
        var k :| 0 <= k < n - 1 && m[k] == p[i];
      }
    }
  }

  // ---------------------------------------------------------------------
  // The mapping catalog

  lemma ConfigIndexOf(cs: seq<MappingHeader>, k: nat)
    requires k < |cs|
    requires forall i, j :: 0 <= i < j < |cs| ==> cs[i].name != cs[j].name
    ensures ConfigIndex(cs, cs[k].name) == Some(k)
  {
  }

  /** Position of the saved header after a save: its old position, or the end. */
  function SavedIndex(s: Store, name: string): nat
  {
    match ConfigIndex(s.configs, name)
    case Some(k) => k
    case None => |s.configs|
  }

  /** Id of the saved header after a save: its old id, or the next one. */
  function SavedId(s: Store, name: string): nat
    requires ConfigIndex(s.configs, name).Some? ==> ConfigIndex(s.configs, name).value < |s.configs|
  {
    match ConfigIndex(s.configs, name)
    case Some(k) => s.configs[k].id
    case None => s.nextConfigId
  }

  lemma ReplaceHeaderUnique(cs: seq<MappingHeader>, k: nat, h: MappingHeader)
    requires UniqueConfigs(cs) && k < |cs| && h.name == cs[k].name && h.id == cs[k].id
    ensures UniqueConfigs(cs[k := h])
  {
  }

  lemma AppendHeaderUnique(cs: seq<MappingHeader>, h: MappingHeader, next: nat)
    requires UniqueConfigs(cs) && ConfigIdsBelow(cs, next) && h.id == next && 0 < next
    requires forall i :: 0 <= i < |cs| ==> cs[i].name != h.name
    ensures UniqueConfigs(cs + [h]) && ConfigIdsBelow(cs + [h], next + 1)
  {
  }

  /** Where the header of a save ends up, with the fields just passed in. */
  lemma SavedHeader(s: Store, name: string, su: string, tu: string, st: string, tt: string, mappings: Dict<string>)
    requires WellFormed(s)
    ensures var s' := SaveMapping(s, name, su, tu, st, tt, mappings);
            && UniqueConfigs(s'.configs)
            && ConfigIdsBelow(s'.configs, s'.nextConfigId)
            && SavedIndex(s, name) < |s'.configs|
            && s'.configs[SavedIndex(s, name)] == MappingHeader(SavedId(s, name), name, su, tu, st, tt)
            && ConfigIndex(s'.configs, name) == Some(SavedIndex(s, name))
  {
    var s' := SaveMapping(s, name, su, tu, st, tt, mappings);
    var h := MappingHeader(SavedId(s, name), name, su, tu, st, tt);
    match ConfigIndex(s.configs, name)
    case Some(k) =>
      assert s'.configs == s.configs[k := h];
      ReplaceHeaderUnique(s.configs, k, h);
    case None =>
      assert s'.configs == s.configs + [h];
      AppendHeaderUnique(s.configs, h, s.nextConfigId);
    }

  /** After a save, the detail pairs of the saved header are the kept entries; those of any other id are as before. */
  lemma SavedPairs(s: Store, name: string, su: string, tu: string, st: string, tt: string,
                   mappings: Dict<string>, other: nat)
    requires WellFormed(s)
    ensures PairsOf(SaveMapping(s, name, su, tu, st, tt, mappings).details, other)
         == if other == SavedId(s, name) then Persisted(mappings) else PairsOf(s.details, other)
  {
    var s' := SaveMapping(s, name, su, tu, st, tt, mappings);
    var rows := Persisted(mappings);
    var id := SavedId(s, name);
    match ConfigIndex(s.configs, name)
    case Some(k) =>
      assert s'.details == WithoutConfig(s.details, id) + NewRows(id, s.nextDetailId, rows);
      PairsOfAppend(WithoutConfig(s.details, id), NewRows(id, s.nextDetailId, rows), other);
      PairsOfWithout(s.details, id, other);
      PairsOfNewRows(id, s.nextDetailId, rows, other);
    case None =>
      assert s'.details == s.details + NewRows(id, s.nextDetailId, rows);
      PairsOfAppend(s.details, NewRows(id, s.nextDetailId, rows), other);
      PairsOfNewRows(id, s.nextDetailId, rows, other);
      if other == id {
        PairsOfAbsent(s.details, id);
      }
  }

  /** A save keeps the store well-formed, whether or not it is owned. */
  lemma SaveMappingWellFormed(s: Store, name: string, su: string, tu: string, st: string, tt: string, mappings: Dict<string>)
    requires WellFormed(s)
    ensures WellFormed(SaveMapping(s, name, su, tu, st, tt, mappings))
  {
    var s' := SaveMapping(s, name, su, tu, st, tt, mappings);
    var rows := Persisted(mappings);
    var id := SavedId(s, name);
    SavedHeader(s, name, su, tu, st, tt, mappings);
    NewRowsMembers(id, s.nextDetailId, rows);
    match ConfigIndex(s.configs, name)
    case Some(k) =>
      assert s'.details == WithoutConfig(s.details, id) + NewRows(id, s.nextDetailId, rows);
      assert id < s.nextConfigId;
    case None =>
      assert s'.details == s.details + NewRows(id, s.nextDetailId, rows);
  }

  /** Every successful save keeps the store well-formed and owned. */
  lemma SaveMappingValid(s: Store, name: string, su: string, tu: string, st: string, tt: string, mappings: Dict<string>)
    requires Valid(s)
    ensures Valid(SaveMapping(s, name, su, tu, st, tt, mappings))
  {
    var s' := SaveMapping(s, name, su, tu, st, tt, mappings);
    var rows := Persisted(mappings);
    var id := SavedId(s, name);
    SaveMappingWellFormed(s, name, su, tu, st, tt, mappings);
    SavedHeader(s, name, su, tu, st, tt, mappings);
    NewRowsMembers(id, s.nextDetailId, rows);
    assert id in ConfigIds(s'.configs) by {
      assert s'.configs[SavedIndex(s, name)] in s'.configs;
    }
    assert ConfigIds(s.configs) <= ConfigIds(s'.configs) by {
      forall x | x in ConfigIds(s.configs) ensures x in ConfigIds(s'.configs) {
        var i :| 0 <= i < |s.configs| && s.configs[i].id == x;
        assert s'.configs[i].id == x;
      }
    }
    match ConfigIndex(s.configs, name)
    case Some(k) =>
      assert s'.details == WithoutConfig(s.details, id) + NewRows(id, s.nextDetailId, rows);
    case None =>
      assert s'.details == s.details + NewRows(id, s.nextDetailId, rows);
  }

  /**
   * Load after save: the header carries the fields just passed in, and the
   * mapping is the input dict restricted to the entries whose source and
   * target are both non-empty; an input with no such entry loads as the empty
   * dict, which is not the not-found result.
   */
  lemma LoadAfterSaveMapping(s: Store, name: string, su: string, tu: string, st: string, tt: string, mappings: Dict<string>)
    requires Valid(s)
    ensures LoadMapping(SaveMapping(s, name, su, tu, st, tt, mappings), name)
         == (Some(MappingInfo(name, su, tu, st, tt)), Some(ToMap(Persisted(mappings))))
  {
    SavedHeader(s, name, su, tu, st, tt, mappings);
    SavedPairs(s, name, su, tu, st, tt, mappings, SavedId(s, name));
  }

  /** The loaded mapping holds exactly the non-empty entries of the saved dict, with their values. */
  lemma PersistedMapEntries(mappings: Dict<string>)
    requires DistinctKeys(mappings)
    ensures forall i :: 0 <= i < |mappings| && Kept(mappings[i]) ==>
              mappings[i].0 in ToMap(Persisted(mappings)) && ToMap(Persisted(mappings))[mappings[i].0] == mappings[i].1
    ensures forall c :: c in ToMap(Persisted(mappings)) ==>
              exists i :: 0 <= i < |mappings| && Kept(mappings[i]) && mappings[i].0 == c
  {
    var p := Persisted(mappings);
    PersistedDistinct(mappings);
    PersistedMembers(mappings);
    forall i | 0 <= i < |mappings| && Kept(mappings[i])
      ensures mappings[i].0 in ToMap(p) && ToMap(p)[mappings[i].0] == mappings[i].1
    {
      assert mappings[i] in p;
      var j :| 0 <= j < |p| && p[j] == mappings[i];
      ToMapAt(p, j);
    }
    forall c | c in ToMap(p)
      ensures exists i :: 0 <= i < |mappings| && Kept(mappings[i]) && mappings[i].0 == c
    {
      var j :| 0 <= j < |p| && p[j].0 == c;
      assert p[j] in mappings;
      var i :| 0 <= i < |mappings| && mappings[i] == p[j];
    }
  }

  /**
   * Saving under a name that exists overwrites in place: the header keeps its
   * position and id, takes the new URL and table fields, stays the only header
   * of that name, and its detail rows are exactly the new kept entries, none
   * of the old ones; no header is added.
   */
  lemma SaveMappingOverwrites(s: Store, name: string, su: string, tu: string, st: string, tt: string, mappings: Dict<string>)
    requires Valid(s) && HasMapping(s, name)
    ensures var k := ConfigIndex(s.configs, name).value;
            var s' := SaveMapping(s, name, su, tu, st, tt, mappings);
            && |s'.configs| == |s.configs|
            && ConfigIndex(s'.configs, name) == Some(k)
            && s'.configs[k] == MappingHeader(s.configs[k].id, name, su, tu, st, tt)
            && (forall i :: 0 <= i < |s.configs| && i != k ==> s'.configs[i] == s.configs[i])
            && (forall i :: 0 <= i < |s'.configs| && s'.configs[i].name == name ==> i == k)
            && PairsOf(s'.details, s.configs[k].id) == Persisted(mappings)
  {
    SavedHeader(s, name, su, tu, st, tt, mappings);
    SavedPairs(s, name, su, tu, st, tt, mappings, SavedId(s, name));
  }

  /** Save A then save B under one name: the load shows B's entries only, never the union. */
  lemma SecondSaveReplaces(s: Store, name: string,
                           su1: string, tu1: string, st1: string, tt1: string, a: Dict<string>,
                           su2: string, tu2: string, st2: string, tt2: string, b: Dict<string>)
    requires Valid(s)
    ensures var s1 := SaveMapping(s, name, su1, tu1, st1, tt1, a);
            var s2 := SaveMapping(s1, name, su2, tu2, st2, tt2, b);
            && LoadMapping(s2, name) == (Some(MappingInfo(name, su2, tu2, st2, tt2)), Some(ToMap(Persisted(b))))
            && |s2.configs| == |s1.configs|
            && s2.configs[ConfigIndex(s2.configs, name).value].id == s1.configs[ConfigIndex(s1.configs, name).value].id
  {
    var s1 := SaveMapping(s, name, su1, tu1, st1, tt1, a);
    SaveMappingValid(s, name, su1, tu1, st1, tt1, a);
    LoadAfterSaveMapping(s1, name, su2, tu2, st2, tt2, b);
    LoadAfterSaveMapping(s, name, su1, tu1, st1, tt1, a);
    SaveMappingOverwrites(s1, name, su2, tu2, st2, tt2, b);
  }

  /** A save touches no other mapping: every other name loads as before. */
  lemma SaveMappingKeepsOthers(s: Store, name: string, su: string, tu: string, st: string, tt: string,
                               mappings: Dict<string>, other: string)
    requires Valid(s) && other != name
    ensures LoadMapping(SaveMapping(s, name, su, tu, st, tt, mappings), other) == LoadMapping(s, other)
  {
    var s' := SaveMapping(s, name, su, tu, st, tt, mappings);
    SavedHeader(s, name, su, tu, st, tt, mappings);
    match ConfigIndex(s.configs, other)
    case None =>
      assert ConfigIndex(s'.configs, other).None? by {
        forall i | 0 <= i < |s'.configs| ensures s'.configs[i].name != other {
          if i != SavedIndex(s, name) { assert s'.configs[i] == s.configs[i]; }
        }
      }
    case Some(j) =>
      var oid := s.configs[j].id;
      assert j != SavedIndex(s, name) && s'.configs[j] == s.configs[j];
      assert oid != SavedId(s, name);
      ConfigIndexOf(s'.configs, j);
      SavedPairs(s, name, su, tu, st, tt, mappings, oid);
  }

  /** Removing the header at position `k` keeps names and ids unique and below the counter. */
  lemma RemoveHeaderWellFormed(cs: seq<MappingHeader>, k: nat, next: nat)
    requires UniqueConfigs(cs) && ConfigIdsBelow(cs, next) && k < |cs|
    ensures UniqueConfigs(cs[..k] + cs[k + 1..]) && ConfigIdsBelow(cs[..k] + cs[k + 1..], next)
  {
    var r := cs[..k] + cs[k + 1..];
    forall i, j | 0 <= i < j < |r| ensures r[i].name != r[j].name && r[i].id != r[j].id {
      assert r[i] == cs[if i < k then i else i + 1] && r[j] == cs[if j < k then j else j + 1];
    }
    forall i | 0 <= i < |r| ensures 0 < r[i].id < next {
      assert r[i] == cs[if i < k then i else i + 1];
    }
  }

  /** Removing a header leaves only ids of the other headers. */
  lemma RemoveHeaderIds(cs: seq<MappingHeader>, k: nat)
    requires UniqueConfigs(cs) && k < |cs|
    ensures ConfigIds(cs[..k] + cs[k + 1..]) <= ConfigIds(cs) - {cs[k].id}
  {
    var r := cs[..k] + cs[k + 1..];
    forall i | 0 <= i < |r| ensures r[i] in cs && r[i].id != cs[k].id {
      var i0 := if i < k then i else i + 1;
      assert r[i] == cs[i0];
    }
  }

  /** A delete keeps the store well-formed, whether or not it is owned. */
  lemma DeleteMappingWellFormed(s: Store, name: string)
    requires WellFormed(s)
    ensures WellFormed(DeleteMapping(s, name))
  {
    match ConfigIndex(s.configs, name)
    case None =>
    case Some(k) =>
      RemoveHeaderWellFormed(s.configs, k, s.nextConfigId);
  }

  lemma DeleteMappingValid(s: Store, name: string)
    requires Valid(s)
    ensures Valid(DeleteMapping(s, name))
  {
    var s' := DeleteMapping(s, name);
    DeleteMappingWellFormed(s, name);
    match ConfigIndex(s.configs, name)
    case None =>
    case Some(k) =>
      var id := s.configs[k].id;
      forall d | d in s'.details ensures d.configId in ConfigIds(s'.configs) {
        assert d in s.details && d.configId != id;
        var h :| h in s.configs && h.id == d.configId;
        var i :| 0 <= i < |s.configs| && s.configs[i] == h;
        assert i != k;
        assert h == s'.configs[if i < k then i else i - 1];
      }
    }

  /**
   * Delete by name: the header and every detail row of its id are gone, the
   * name no longer loads nor appears in the sorted name list, a second delete
   * finds nothing to delete, and every other mapping loads as before.
   */
  lemma DeleteMappingRemoves(s: Store, name: string, other: string)
    requires Valid(s)
    ensures var s' := DeleteMapping(s, name);
            && LoadMapping(s', name) == (None, None)
            && !HasMapping(s', name)
            && name !in MappingNames(s')
            && (HasMapping(s, name) ==>
                  forall d :: d in s'.details ==> d.configId != s.configs[ConfigIndex(s.configs, name).value].id)
            && DeleteMapping(s', name) == s'
            && (other != name ==> LoadMapping(s', other) == LoadMapping(s, other))
  {
    var s' := DeleteMapping(s, name);
    DeleteMappingValid(s, name);
    MappingNamesListed(s');
    match ConfigIndex(s.configs, name)
    case None =>
    case Some(k) =>
      var id := s.configs[k].id;
      assert ConfigIndex(s'.configs, name).None? by {
        forall i | 0 <= i < |s'.configs| ensures s'.configs[i].name != name {
          assert s'.configs[i] == s.configs[if i < k then i else i + 1];
        }
      }
      if other != name {
        DeleteMappingKeepsOthers(s, name, other);
      }
  }

  /** Deleting a mapping leaves every other mapping loading as before. */
  lemma DeleteMappingKeepsOthers(s: Store, name: string, other: string)
    requires WellFormed(s) && other != name
    ensures LoadMapping(DeleteMapping(s, name), other) == LoadMapping(s, other)
  {
    var s' := DeleteMapping(s, name);
    match ConfigIndex(s.configs, name)
    case None =>
    case Some(k) =>
      var id := s.configs[k].id;
      match ConfigIndex(s.configs, other)
      case None =>
        assert ConfigIndex(s'.configs, other).None? by {
          forall i | 0 <= i < |s'.configs| ensures s'.configs[i].name != other {
            assert s'.configs[i] == s.configs[if i < k then i else i + 1];
          }
        }
      case Some(j) =>
        var j' := if j < k then j else j - 1;
        assert s'.configs[j'] == s.configs[j];
        ConfigIndexOf(s'.configs, j');
        PairsOfWithout(s.details, id, s.configs[j].id);
  }

  /**
   * The name list is strictly ascending and holds exactly the names of the
   * stored headers.
   */
  lemma MappingNamesListed(s: Store)
    requires UniqueConfigs(s.configs)
    ensures StrictlySorted(MappingNames(s))
    ensures |MappingNames(s)| == |s.configs|
    ensures forall n :: n in MappingNames(s) <==> HasMapping(s, n)
  {
    var names := seq(|s.configs|, i requires 0 <= i < |s.configs| => s.configs[i].name);
    assert Distinct(names) by {
      forall i, j | 0 <= i < j < |names| ensures names[i] != names[j] {
        assert names[i] == s.configs[i].name && names[j] == s.configs[j].name;
      }
    }
    SortDistinct(names);
    forall n ensures n in names <==> HasMapping(s, n) {
      if HasMapping(s, n) {
        assert names[ConfigIndex(s.configs, n).value] == n;
      }
    }
  }

  // ---------------------------------------------------------------------
  // The connection catalog

  lemma ConnectionIndexOf(cs: seq<ConnectionRow>, k: nat)
    requires k < |cs|
    requires forall i, j :: 0 <= i < j < |cs| ==> cs[i].name != cs[j].name
    ensures ConnectionIndex(cs, cs[k].name) == Some(k)
  {
  }

  /** The connection operations keep the store well-formed and leave the mapping relations alone. */
  lemma SaveConnectionWellFormed(s: Store, name: string, dbType: string, params: map<string, string>)
    requires WellFormed(s)
    ensures var s' := SaveConnection(s, name, dbType, params);
            WellFormed(s') && s'.configs == s.configs && s'.details == s.details
  {
  }

  /**
   * Saving a connection is an upsert by name: loading the name afterwards
   * gives the settings read from the parameter dict (None for a missing key);
   * an existing row keeps its position and id, a new one is appended with the
   * next id; every other row is untouched.
   */
  lemma SaveConnectionUpserts(s: Store, name: string, dbType: string, params: map<string, string>)
    requires Valid(s)
    ensures var s' := SaveConnection(s, name, dbType, params);
            && LoadConnection(s', name) == Some(ConnectionInfo(name, SettingsFrom(dbType, params)))
            && (HasConnection(s, name) ==>
                  var k := ConnectionIndex(s.connections, name).value;
                  |s'.connections| == |s.connections| && s'.connections[k].id == s.connections[k].id)
            && (!HasConnection(s, name) ==>
                  s'.connections == s.connections + [ConnectionRow(s.nextConnectionId, name, SettingsFrom(dbType, params))])
            && (forall i :: 0 <= i < |s.connections| && s.connections[i].name != name ==>
                  s'.connections[i] == s.connections[i])
            && s'.configs == s.configs && s'.details == s.details
  {
    var s' := SaveConnection(s, name, dbType, params);
    SaveConnectionWellFormed(s, name, dbType, params);
    match ConnectionIndex(s.connections, name)
    case Some(k) =>
      ConnectionIndexOf(s'.connections, k);
    case None =>
      ConnectionIndexOf(s'.connections, |s.connections|);
  }

  lemma DeleteConnectionWellFormed(s: Store, name: string)
    requires WellFormed(s)
    ensures var s' := DeleteConnection(s, name);
            WellFormed(s') && s'.configs == s.configs && s'.details == s.details
  {
    match ConnectionIndex(s.connections, name)
    case None =>
    case Some(k) =>
      var s' := DeleteConnection(s, name);
      forall i, j | 0 <= i < j < |s'.connections|
        ensures s'.connections[i].name != s'.connections[j].name && s'.connections[i].id != s'.connections[j].id
      {
        assert s'.connections[i] == s.connections[if i < k then i else i + 1];
        assert s'.connections[j] == s.connections[if j < k then j else j + 1];
      }
      forall i | 0 <= i < |s'.connections| ensures 0 < s'.connections[i].id < s'.nextConnectionId {
        assert s'.connections[i] == s.connections[if i < k then i else i + 1];
      }
  }

  /**
   * Delete by name: the name no longer loads or lists, a second delete finds
   * nothing, every other connection loads as before and the mappings are
   * untouched.
   */
  lemma DeleteConnectionRemoves(s: Store, name: string)
    requires Valid(s)
    ensures var s' := DeleteConnection(s, name);
            && LoadConnection(s', name) == None
            && name !in ConnectionNames(s')
            && DeleteConnection(s', name) == s'
            && |s'.connections| == |s.connections| - (if HasConnection(s, name) then 1 else 0)
            && (forall other :: other != name ==> LoadConnection(s', other) == LoadConnection(s, other))
            && s'.configs == s.configs && s'.details == s.details
  {
    var s' := DeleteConnection(s, name);
    DeleteConnectionWellFormed(s, name);
    ConnectionNamesListed(s');
    match ConnectionIndex(s.connections, name)
    case None =>
    case Some(k) =>
      assert ConnectionIndex(s'.connections, name).None? by {
        forall i | 0 <= i < |s'.connections| ensures s'.connections[i].name != name {
          assert s'.connections[i] == s.connections[if i < k then i else i + 1];
        }
      }
    forall other | other != name ensures LoadConnection(s', other) == LoadConnection(s, other) {
      DeleteConnectionKeepsOthers(s, name, other);
    }
  }

  /** Deleting a connection leaves every other connection loading as before. */
  lemma DeleteConnectionKeepsOthers(s: Store, name: string, other: string)
    requires UniqueConnections(s.connections) && other != name
    ensures LoadConnection(DeleteConnection(s, name), other) == LoadConnection(s, other)
  {
    var s' := DeleteConnection(s, name);
    match ConnectionIndex(s.connections, name)
    case None =>
    case Some(k) =>
      match ConnectionIndex(s.connections, other)
      case None =>
        assert ConnectionIndex(s'.connections, other).None? by {
          forall i | 0 <= i < |s'.connections| ensures s'.connections[i].name != other {
            assert s'.connections[i] == s.connections[if i < k then i else i + 1];
          }
        }
      case Some(j) =>
        var j' := if j < k then j else j - 1;
        assert s'.connections[j'] == s.connections[j];
        forall a, b | 0 <= a < b < |s'.connections| ensures s'.connections[a].name != s'.connections[b].name {
          assert s'.connections[a] == s.connections[if a < k then a else a + 1];
          assert s'.connections[b] == s.connections[if b < k then b else b + 1];
        }
        ConnectionIndexOf(s'.connections, j');
  }

  lemma ConnectionNamesListed(s: Store)
    requires UniqueConnections(s.connections)
    ensures StrictlySorted(ConnectionNames(s))
    ensures |ConnectionNames(s)| == |s.connections|
    ensures forall n :: n in ConnectionNames(s) <==> HasConnection(s, n)
  {
    var names := seq(|s.connections|, i requires 0 <= i < |s.connections| => s.connections[i].name);
    assert Distinct(names) by {
      forall i, j | 0 <= i < j < |names| ensures names[i] != names[j] {
        assert names[i] == s.connections[i].name && names[j] == s.connections[j].name;
      }
    }
    SortDistinct(names);
    forall n ensures n in names <==> HasConnection(s, n) {
      if HasConnection(s, n) {
        assert names[ConnectionIndex(s.connections, n).value] == n;
      }
    }
  }

  lemma UpdateConnectionWellFormed(s: Store, originalName: string, newName: string, dbType: string, params: map<string, string>)
    requires WellFormed(s)
    ensures var s' := UpdateConnection(s, originalName, newName, dbType, params);
            WellFormed(s') && s'.configs == s.configs && s'.details == s.details
  {
  }

  /**
   * Update with rename: a missing original, or a new name held by another
   * row, leaves the store as it was; otherwise the row of the original name
   * keeps its position and id and takes the new name and settings, every
   * other row is untouched, the new name loads the new settings and, after a
   * real rename, the old name no longer loads.
   */
  lemma UpdateConnectionEffect(s: Store, originalName: string, newName: string, dbType: string, params: map<string, string>)
    requires Valid(s)
    ensures var s' := UpdateConnection(s, originalName, newName, dbType, params);
            var verdict := CheckUpdate(s, originalName, newName);
            && (verdict == OriginalMissing <==> !HasConnection(s, originalName))
            && (verdict == NewNameTaken <==>
                  HasConnection(s, originalName) && originalName != newName && HasConnection(s, newName))
            && (verdict != UpdateAllowed ==> s' == s)
            && (verdict == UpdateAllowed ==>
                  var k := ConnectionIndex(s.connections, originalName).value;
                  && |s'.connections| == |s.connections|
                  && s'.connections[k] == ConnectionRow(s.connections[k].id, newName, SettingsFrom(dbType, params))
                  && (forall i :: 0 <= i < |s.connections| && i != k ==> s'.connections[i] == s.connections[i])
                  && LoadConnection(s', newName) == Some(ConnectionInfo(newName, SettingsFrom(dbType, params)))
                  && (originalName != newName ==> LoadConnection(s', originalName) == None))
  {
    var s' := UpdateConnection(s, originalName, newName, dbType, params);
    if CheckUpdate(s, originalName, newName) == UpdateAllowed {
      var k := ConnectionIndex(s.connections, originalName).value;
      UpdateConnectionWellFormed(s, originalName, newName, dbType, params);
      ConnectionIndexOf(s'.connections, k);
    }
  }
}
