/**
 * `column_mappings.config_id` is declared with ON DELETE CASCADE, but SQLite
 * enforces foreign keys only when a connection turns them on, and the catalog
 * never does: deleting a mapping removes its header row and leaves its detail
 * rows behind as orphans. This module shows that nobody using the catalog can
 * tell the difference. Because AUTOINCREMENT never hands out an id twice, no
 * later header ever picks up the orphans, so after any sequence of catalog
 * operations the store that cascades and the store that leaves orphans load
 * and list exactly the same mappings and connections.
 */
module Cascade {
  import opened Common
  import opened Catalog

  /** Deleting a mapping as SQLite runs it without foreign-key enforcement: only the header goes. */
  function DeleteHeaderOnly(s: Store, name: string): Store
  {
    match ConfigIndex(s.configs, name)
    case None => s
    case Some(k) => s.(configs := s.configs[..k] + s.configs[k + 1..])
  }

  /**
   * Two stores that agree on every header, connection and counter, and on
   * the detail pairs of every header that exists; they may differ in the
   * detail rows of ids that no header carries.
   */
  predicate SameView(a: Store, b: Store)
  {
    && a.configs == b.configs && a.connections == b.connections
    && a.nextConfigId == b.nextConfigId && a.nextDetailId == b.nextDetailId
    && a.nextConnectionId == b.nextConnectionId
    && forall id :: id in ConfigIds(a.configs) ==> PairsOf(a.details, id) == PairsOf(b.details, id)
  }

  /** Every query of the catalog answers the same on two stores with the same view. */
  lemma SameViewQueries(a: Store, b: Store, name: string)
    requires SameView(a, b)
    ensures LoadMapping(a, name) == LoadMapping(b, name)
    ensures MappingNames(a) == MappingNames(b)
    ensures LoadConnection(a, name) == LoadConnection(b, name)
    ensures ConnectionNames(a) == ConnectionNames(b)
  {
    match ConfigIndex(a.configs, name)
    case None =>
    case Some(k) =>
      assert a.configs[k] in a.configs;
  }

  /** The delete that leaves orphans keeps the store well-formed (but not owned). */
  lemma DeleteHeaderOnlyWellFormed(s: Store, name: string)
    requires WellFormed(s)
    ensures WellFormed(DeleteHeaderOnly(s, name))
  {
    match ConfigIndex(s.configs, name)
    case None =>
    case Some(k) =>
      RemoveHeaderWellFormed(s.configs, k, s.nextConfigId);
  }

  /**
   * Orphans are real: deleting a mapping that has detail rows without the
   * cascade leaves rows that belong to no header.
   */
  lemma OrphansLeft(s: Store, name: string)
    requires Valid(s) && HasMapping(s, name)
    requires PairsOf(s.details, s.configs[ConfigIndex(s.configs, name).value].id) != []
    ensures !Owned(DeleteHeaderOnly(s, name))
  {
    var k := ConfigIndex(s.configs, name).value;
    var id := s.configs[k].id;
    var s' := DeleteHeaderOnly(s, name);
    OwnedRowExists(s.details, id);
    var d :| d in s.details && d.configId == id;
    assert id !in ConfigIds(s'.configs) by {
      forall i | 0 <= i < |s'.configs| ensures s'.configs[i].id != id {
        assert s'.configs[i] == s.configs[if i < k then i else i + 1];
      }
    }
  }

  /** A detail list with pairs under `id` holds a row of `id`. */
  lemma {:induction false} OwnedRowExists(ds: seq<DetailRow>, id: nat)
    requires PairsOf(ds, id) != []
    ensures exists d :: d in ds && d.configId == id
  {
    if ds[0].configId != id {
      OwnedRowExists(ds[1..], id);
      var d :| d in ds[1..] && d.configId == id;
      assert d in ds;
    }
  }

  /** The cascading delete and the orphaning delete have the same view. */
  lemma DeleteSameView(a: Store, b: Store, name: string)
    requires WellFormed(a) && WellFormed(b) && SameView(a, b)
    ensures SameView(DeleteMapping(a, name), DeleteHeaderOnly(b, name))
  {
    match ConfigIndex(a.configs, name)
    case None =>
    case Some(k) =>
      var a' := DeleteMapping(a, name);
      var removed := a.configs[k].id;
      RemoveHeaderIds(a.configs, k);
      forall id | id in ConfigIds(a'.configs)
        ensures PairsOf(a'.details, id) == PairsOf(b.details, id)
      {
        PairsOfWithout(a.details, removed, id);
      }
  }

  /** After a save the headers' ids are the old ones plus the saved one. */
  lemma SavedIds(s: Store, name: string, su: string, tu: string, st: string, tt: string, mappings: Dict<string>)
    requires WellFormed(s)
    ensures ConfigIds(SaveMapping(s, name, su, tu, st, tt, mappings).configs) <= ConfigIds(s.configs) + {SavedId(s, name)}
  {
    var s' := SaveMapping(s, name, su, tu, st, tt, mappings);
    SavedHeader(s, name, su, tu, st, tt, mappings);
    forall x | x in ConfigIds(s'.configs) ensures x in ConfigIds(s.configs) + {SavedId(s, name)} {
      var i :| 0 <= i < |s'.configs| && s'.configs[i].id == x;
      if i != SavedIndex(s, name) {
        assert s'.configs[i] == s.configs[i];
        assert s.configs[i] in s.configs;
      }
    }
  }

  /**
   * A save on two stores with the same view keeps the view the same: the new
   * header either keeps its id, whose pairs are replaced on both sides, or
   * takes the next id, under which neither store holds a row.
   */
  lemma SaveSameView(a: Store, b: Store, name: string, su: string, tu: string, st: string, tt: string,
                     mappings: Dict<string>)
    requires WellFormed(a) && WellFormed(b) && SameView(a, b)
    ensures SameView(SaveMapping(a, name, su, tu, st, tt, mappings), SaveMapping(b, name, su, tu, st, tt, mappings))
  {
    var a' := SaveMapping(a, name, su, tu, st, tt, mappings);
    var b' := SaveMapping(b, name, su, tu, st, tt, mappings);
    SavedIds(a, name, su, tu, st, tt, mappings);
    forall id | id in ConfigIds(a'.configs)
      ensures PairsOf(a'.details, id) == PairsOf(b'.details, id)
    {
      SavedPairs(a, name, su, tu, st, tt, mappings, id);
      SavedPairs(b, name, su, tu, st, tt, mappings, id);
    }
  }

  /** One call of any catalog operation that changes the store. */
  datatype CatalogOp =
    | SaveMappingOp(name: string, sourceDbUrl: string, targetDbUrl: string,
                    sourceTable: string, targetTable: string, mappings: Dict<string>)
    | DeleteMappingOp(name: string)
    | SaveConnectionOp(name: string, dbType: string, params: map<string, string>)
    | DeleteConnectionOp(name: string)
    | UpdateConnectionOp(originalName: string, newName: string, dbType: string, params: map<string, string>)

  /** The effect of one operation; `cascade` says whether a mapping delete removes the detail rows. */
  function Apply(s: Store, op: CatalogOp, cascade: bool): Store
  {
    match op
    case SaveMappingOp(n, su, tu, st, tt, m) => SaveMapping(s, n, su, tu, st, tt, m)
    case DeleteMappingOp(n) => if cascade then DeleteMapping(s, n) else DeleteHeaderOnly(s, n)
    case SaveConnectionOp(n, t, p) => SaveConnection(s, n, t, p)
    case DeleteConnectionOp(n) => DeleteConnection(s, n)
    case UpdateConnectionOp(o, n, t, p) => UpdateConnection(s, o, n, t, p)
  }

  /** The store after a sequence of operations, first to last. */
  function Run(s: Store, ops: seq<CatalogOp>, cascade: bool): Store
    decreases |ops|
  {
    if ops == [] then s else Run(Apply(s, ops[0], cascade), ops[1..], cascade)
  }

  lemma ApplySameView(a: Store, b: Store, op: CatalogOp)
    requires WellFormed(a) && WellFormed(b) && SameView(a, b)
    ensures WellFormed(Apply(a, op, true)) && WellFormed(Apply(b, op, false))
    ensures SameView(Apply(a, op, true), Apply(b, op, false))
  {
    match op
    case SaveMappingOp(n, su, tu, st, tt, m) =>
      SaveMappingWellFormed(a, n, su, tu, st, tt, m);
      SaveMappingWellFormed(b, n, su, tu, st, tt, m);
      SaveSameView(a, b, n, su, tu, st, tt, m);
    case DeleteMappingOp(n) =>
      DeleteMappingWellFormed(a, n);
      DeleteHeaderOnlyWellFormed(b, n);
      DeleteSameView(a, b, n);
    case SaveConnectionOp(n, t, p) =>
      SaveConnectionWellFormed(a, n, t, p);
      SaveConnectionWellFormed(b, n, t, p);
    case DeleteConnectionOp(n) =>
      DeleteConnectionWellFormed(a, n);
      DeleteConnectionWellFormed(b, n);
    case UpdateConnectionOp(o, n, t, p) =>
      UpdateConnectionWellFormed(a, o, n, t, p);
      UpdateConnectionWellFormed(b, o, n, t, p);
  }

  lemma {:induction false} RunSameView(a: Store, b: Store, ops: seq<CatalogOp>)
    requires WellFormed(a) && WellFormed(b) && SameView(a, b)
    ensures WellFormed(Run(a, ops, true)) && WellFormed(Run(b, ops, false))
    ensures SameView(Run(a, ops, true), Run(b, ops, false))
    decreases |ops|
  {
    if ops != [] {
      ApplySameView(a, b, ops[0]);
      RunSameView(Apply(a, ops[0], true), Apply(b, ops[0], false), ops[1..]);
    }
  }

  /**
   * Whatever the catalog is asked to do, starting from a valid store, the
   * store that cascades and the store that leaves orphans give the same answer
   * to every load and every name listing.
   */
  lemma OrphansUnobservable(s: Store, ops: seq<CatalogOp>, name: string)
    requires Valid(s)
    ensures LoadMapping(Run(s, ops, true), name) == LoadMapping(Run(s, ops, false), name)
    ensures MappingNames(Run(s, ops, true)) == MappingNames(Run(s, ops, false))
    ensures LoadConnection(Run(s, ops, true), name) == LoadConnection(Run(s, ops, false), name)
    ensures ConnectionNames(Run(s, ops, true)) == ConnectionNames(Run(s, ops, false))
  {
    RunSameView(s, s, ops);
    SameViewQueries(Run(s, ops, true), Run(s, ops, false), name);
  }

  /** The cascading store stays valid: its detail rows always belong to a header. */
  lemma {:induction false} RunValid(s: Store, ops: seq<CatalogOp>)
    requires Valid(s)
    ensures Valid(Run(s, ops, true))
    decreases |ops|
  {
    if ops != [] {
      var s' := Apply(s, ops[0], true);
      match ops[0] {
        case SaveMappingOp(n, su, tu, st, tt, m) => SaveMappingValid(s, n, su, tu, st, tt, m);
        case DeleteMappingOp(n) => DeleteMappingValid(s, n);
        case SaveConnectionOp(n, t, p) => SaveConnectionWellFormed(s, n, t, p);
        case DeleteConnectionOp(n) => DeleteConnectionWellFormed(s, n);
        case UpdateConnectionOp(o, n, t, p) => UpdateConnectionWellFormed(s, o, n, t, p);
      }
      RunValid(s', ops[1..]);
    }
  }
}
