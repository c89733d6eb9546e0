/**
 * The metadata store as the program drives it: three relations and their
 * AUTOINCREMENT counters, changed statement by statement inside one
 * transaction per call. Every call that changes something either commits all
 * of its statements or, when one of them (or the commit) raises, rolls the
 * store back to where it was. Each method is proved to end in the state the
 * matching function of module Catalog describes.
 */
module MetadataStore {
  import opened Common
  import opened LexOrder
  import opened Catalog

  /** Number of statements a mapping save executes, the commit included. */
  function SaveMappingStatements(s: Store, name: string, mappings: Dict<string>): nat
  {
    (if HasMapping(s, name) then 3 else 2) + |Persisted(mappings)| + 1
  }

  /** Number of statements an update executes before it returns, the commit included. */
  function UpdateStatements(s: Store, originalName: string, newName: string): nat
  {
    match CheckUpdate(s, originalName, newName)
    case OriginalMissing => 1
    case NewNameTaken => 2
    case UpdateAllowed => if originalName != newName then 4 else 3
  }

  /**
   * The store after the header statements of a mapping save: an existing
   * header updated in place with its detail rows deleted, or a new header
   * with the next id.
   */
  function HeaderSaved(s: Store, name: string, su: string, tu: string, st: string, tt: string): Store
  {
    match ConfigIndex(s.configs, name)
    case Some(k) =>
      s.(configs := s.configs[k := MappingHeader(s.configs[k].id, name, su, tu, st, tt)],
         details := WithoutConfig(s.details, s.configs[k].id))
    case None =>
      s.(configs := s.configs + [MappingHeader(s.nextConfigId, name, su, tu, st, tt)],
         nextConfigId := s.nextConfigId + 1)
  }

  /** A mapping save is its header statements followed by one detail insert per persisted entry. */
  lemma SaveMappingSteps(s: Store, name: string, su: string, tu: string, st: string, tt: string, mappings: Dict<string>)
    ensures var h := HeaderSaved(s, name, su, tu, st, tt);
            var rows := Persisted(mappings);
            SaveMapping(s, name, su, tu, st, tt, mappings)
            == h.(details := h.details + NewRows(SavedId(s, name), s.nextDetailId, rows),
                  nextDetailId := s.nextDetailId + |rows|)
  {
  }

  class MetadataStore {
    var mappingConfigs: seq<MappingHeader>
    var columnMappings: seq<DetailRow>
    var savedConnections: seq<ConnectionRow>
    var nextConfigId: nat
    var nextDetailId: nat
    var nextConnectionId: nat

    /** The store's contents as a value. */
    function State(): Store
      reads this
    {
      Store(mappingConfigs, columnMappings, savedConnections, nextConfigId, nextDetailId, nextConnectionId)
    }

    /** A store whose three relations have just been created. */
    constructor ()
      ensures State() == EmptyStore()
    {
      mappingConfigs, columnMappings, savedConnections := [], [], [];
      nextConfigId, nextDetailId, nextConnectionId := 1, 1, 1;
    }

    /** Undo everything since `saved` was taken: what ROLLBACK does. */
    method RollBack(saved: Store)
      modifies this
      ensures State() == saved
    {
      mappingConfigs, columnMappings, savedConnections := saved.configs, saved.details, saved.connections;
      nextConfigId, nextDetailId, nextConnectionId := saved.nextConfigId, saved.nextDetailId, saved.nextConnectionId;
    }

    /**
     * Saves a mapping under `name`: an upsert of the header, then one detail
     * row per entry whose source and target are both non-empty. All or
     * nothing: success means every statement ran and was committed.
     */
    method SaveColumnMapping(name: string, sourceDbUrl: string, targetDbUrl: string,
                             sourceTable: string, targetTable: string,
                             mappings: Dict<string>, fault: Fault) returns (ok: bool, msg: Message)
      requires Valid(State())
      modifies this
      ensures Valid(State())
      ensures ok <==> !Hits(fault, SaveMappingStatements(old(State()), name, mappings))
      ensures ok ==> State() == SaveMapping(old(State()), name, sourceDbUrl, targetDbUrl, sourceTable, targetTable, mappings)
      ensures ok ==> msg == MappingSaved
      ensures !ok ==> State() == old(State()) && msg == MappingSaveFailed(ErrorText(fault))
    {
      var saved := State();
      if FailsAt(fault, 0) {                                  // SELECT id ... WHERE name
        ok, msg := false, MappingSaveFailed(ErrorText(fault));
        return;
      }
      var failed, configId, step := SaveHeader(name, sourceDbUrl, targetDbUrl, sourceTable, targetTable, fault);
      if failed {
        RollBack(saved);
        ok, msg := false, MappingSaveFailed(ErrorText(fault));
        return;
      }
      failed, step := InsertDetailRows(configId, mappings, fault, step);
      if failed {
        RollBack(saved);
        ok, msg := false, MappingSaveFailed(ErrorText(fault));
        return;
      }
      if FailsAt(fault, step) {                               // COMMIT
        RollBack(saved);
        ok, msg := false, MappingSaveFailed(ErrorText(fault));
        return;
      }
      SaveMappingSteps(saved, name, sourceDbUrl, targetDbUrl, sourceTable, targetTable, mappings);
      SaveMappingValid(saved, name, sourceDbUrl, targetDbUrl, sourceTable, targetTable, mappings);
      ok, msg := true, MappingSaved;
    }

    /**
     * The header statements of a mapping save: for an existing name, delete
     * its detail rows and update its header (statements 1 and 2); for a new
     * name, insert a header, whose id is the next one (statement 1).
     */
    method SaveHeader(name: string, sourceDbUrl: string, targetDbUrl: string,
                      sourceTable: string, targetTable: string, fault: Fault)
      returns (failed: bool, configId: nat, step: nat)
      requires !FailsAt(fault, 0)
      modifies this
      ensures failed <==> Hits(fault, if HasMapping(old(State()), name) then 3 else 2)
      ensures !failed ==> State() == HeaderSaved(old(State()), name, sourceDbUrl, targetDbUrl, sourceTable, targetTable)
      ensures !failed ==> configId == SavedId(old(State()), name)
      ensures !failed ==> step == if HasMapping(old(State()), name) then 3 else 2
    {
      var found := ConfigIndex(mappingConfigs, name);
      if found.Some? {
        var k := found.value;
        configId := mappingConfigs[k].id;
        if FailsAt(fault, 1) {                                // DELETE FROM column_mappings
          return true, configId, 1;
        }
        columnMappings := WithoutConfig(columnMappings, configId);
        if FailsAt(fault, 2) {                                // UPDATE mapping_configs
          return true, configId, 2;
        }
        mappingConfigs := mappingConfigs[k := MappingHeader(configId, name, sourceDbUrl, targetDbUrl, sourceTable, targetTable)];
        step := 3;
      } else {
        if FailsAt(fault, 1) {                                // INSERT INTO mapping_configs
          return true, 0, 1;
        }
        configId := nextConfigId;                             // lastrowid
        mappingConfigs := mappingConfigs + [MappingHeader(configId, name, sourceDbUrl, targetDbUrl, sourceTable, targetTable)];
        nextConfigId := nextConfigId + 1;
        step := 2;
      }
      failed := false;
    }

    /**
     * The loop of a mapping save: one INSERT into `column_mappings` per entry
     * whose source and target are both non-empty, in dict order, numbered from
     * statement `firstStep`. Stops at the first statement that raises.
     */
    method InsertDetailRows(configId: nat, mappings: Dict<string>, fault: Fault, firstStep: nat)
      returns (failed: bool, step: nat)
      requires !Hits(fault, firstStep)
      modifies this
      ensures mappingConfigs == old(mappingConfigs) && nextConfigId == old(nextConfigId)
      ensures savedConnections == old(savedConnections) && nextConnectionId == old(nextConnectionId)
      ensures failed <==> Hits(fault, firstStep + |Persisted(mappings)|)
      ensures !failed ==> step == firstStep + |Persisted(mappings)|
      ensures !failed ==> columnMappings == old(columnMappings) + NewRows(configId, old(nextDetailId), Persisted(mappings))
      ensures !failed ==> nextDetailId == old(nextDetailId) + |Persisted(mappings)|
    {
      ghost var before := State();
      step := firstStep;
      ghost var kept: Dict<string> := [];
      var i := 0;
      while i < |mappings|
        invariant 0 <= i <= |mappings|
        invariant kept == PersistedUpTo(mappings, i)
        invariant step == firstStep + |kept| && !Hits(fault, step)
        invariant State() == before.(details := before.details + NewRows(configId, before.nextDetailId, kept),
                                     nextDetailId := before.nextDetailId + |kept|)
      {
        var pair := mappings[i];
        if pair.0 != "" && pair.1 != "" {
          if FailsAt(fault, step) {                           // INSERT INTO column_mappings
            PersistedUpToGrows(mappings, i + 1, |mappings|);
            assert step < firstStep + |Persisted(mappings)|;
            return true, step;
          }
          NewRowsStep(configId, before.nextDetailId, kept, pair);
          InsertDetailRow(configId, pair.0, pair.1);
          step := step + 1;
          kept := kept + [pair];
        }
        i := i + 1;
      }
      assert step == firstStep + |Persisted(mappings)|;
      failed := false;
    }

    /** One `INSERT INTO column_mappings`: a row with the next detail id. */
    method InsertDetailRow(configId: nat, src: string, tgt: string)
      modifies this
      ensures State() == old(State()).(details := old(columnMappings) + [DetailRow(old(nextDetailId), configId, src, tgt)],
                                       nextDetailId := old(nextDetailId) + 1)
    {
      columnMappings := columnMappings + [DetailRow(nextDetailId, configId, src, tgt)];
      nextDetailId := nextDetailId + 1;
    }

    /**
     * The mapping names in ascending order; the empty list when the query
     * fails.
     */
    method GetMappingConfigNames(fault: Fault) returns (names: seq<string>)
      requires Valid(State())
      ensures Hits(fault, 1) ==> names == []
      ensures !Hits(fault, 1) ==> StrictlySorted(names) && |names| == |mappingConfigs|
      ensures !Hits(fault, 1) ==> forall n :: n in names <==> HasMapping(State(), n)
    {
      if FailsAt(fault, 0) {
        return [];
      }
      MappingNamesListed(State());
      names := MappingNames(State());
    }

    /**
     * Loads a mapping: `(None, None)` when the name is unknown or a query
     * fails, otherwise the header dict and the column dict.
     */
    method LoadColumnMapping(name: string, fault: Fault)
      returns (info: Option<MappingInfo>, columns: Option<map<string, string>>)
      requires Valid(State())
      ensures info.None? <==> columns.None?
      ensures info.Some? <==> !Hits(fault, 2) && HasMapping(State(), name)
      ensures info.Some? ==> (info, columns) == LoadMapping(State(), name) && info.value.name == name
    {
      if FailsAt(fault, 0) {                                  // SELECT ... FROM mapping_configs
        return None, None;
      }
      var found := ConfigIndex(mappingConfigs, name);
      if found.None? {
        return None, None;
      }
      if FailsAt(fault, 1) {                                  // SELECT ... FROM column_mappings
        return None, None;
      }
      var h := mappingConfigs[found.value];
      info := Some(MappingInfo(name, h.sourceDbUrl, h.targetDbUrl, h.sourceTable, h.targetTable));
      columns := Some(ToMap(PairsOf(columnMappings, h.id)));
    }

    /**
     * Deletes a mapping by name; its detail rows go with it. Success only
     * when a header was deleted; "not found" otherwise; a failing statement
     * rolls back.
     */
    method DeleteColumnMapping(name: string, fault: Fault) returns (ok: bool, msg: Message)
      requires Valid(State())
      modifies this
      ensures Valid(State())
      ensures ok <==> HasMapping(old(State()), name) && !Hits(fault, 2)
      ensures !Hits(fault, 2) ==> State() == DeleteMapping(old(State()), name)
      ensures Hits(fault, 2) ==> State() == old(State())
      ensures msg == if Hits(fault, 2) then MappingDeleteFailed(name, ErrorText(fault))
                     else if ok then MappingDeleted(name) else MappingNotFound(name)
    {
      var saved := State();
      if FailsAt(fault, 0) {                                  // DELETE FROM mapping_configs
        ok, msg := false, MappingDeleteFailed(name, ErrorText(fault));
        return;
      }
      var found := ConfigIndex(mappingConfigs, name);
      var rowCount := 0;
      if found.Some? {
        var k := found.value;
        columnMappings := WithoutConfig(columnMappings, mappingConfigs[k].id);
        mappingConfigs := mappingConfigs[..k] + mappingConfigs[k + 1..];
        rowCount := 1;
      }
      if FailsAt(fault, 1) {                                  // COMMIT
        RollBack(saved);
        ok, msg := false, MappingDeleteFailed(name, ErrorText(fault));
        return;
      }
      DeleteMappingValid(saved, name);
      if rowCount > 0 {
        ok, msg := true, MappingDeleted(name);
      } else {
        ok, msg := false, MappingNotFound(name);
      }
    }

    /** Saves a connection: update the row of that name in place, or insert one. */
    method SaveConnectionInfo(name: string, dbType: string, params: map<string, string>, fault: Fault)
      returns (ok: bool, msg: Message)
      requires Valid(State())
      modifies this
      ensures Valid(State())
      ensures ok <==> !Hits(fault, 3)
      ensures ok ==> State() == SaveConnection(old(State()), name, dbType, params) && msg == ConnectionSaved(name)
      ensures !ok ==> State() == old(State()) && msg == ConnectionSaveFailed(name, ErrorText(fault))
    {
      var saved := State();
      if FailsAt(fault, 0) {                                  // SELECT id ... WHERE name
        ok, msg := false, ConnectionSaveFailed(name, ErrorText(fault));
        return;
      }
      var found := ConnectionIndex(savedConnections, name);
      var settings := SettingsFrom(dbType, params);
      if FailsAt(fault, 1) {                                  // UPDATE or INSERT
        ok, msg := false, ConnectionSaveFailed(name, ErrorText(fault));
        return;
      }
      if found.Some? {
        var k := found.value;
        savedConnections := savedConnections[k := savedConnections[k].(settings := settings)];
      } else {
        savedConnections := savedConnections + [ConnectionRow(nextConnectionId, name, settings)];
        nextConnectionId := nextConnectionId + 1;
      }
      if FailsAt(fault, 2) {                                  // COMMIT
        RollBack(saved);
        ok, msg := false, ConnectionSaveFailed(name, ErrorText(fault));
        return;
      }
      SaveConnectionWellFormed(saved, name, dbType, params);
      ok, msg := true, ConnectionSaved(name);
    }

    /** The saved connection names in ascending order; the empty list when the query fails. */
    method GetConnectionNames(fault: Fault) returns (names: seq<string>)
      requires Valid(State())
      ensures Hits(fault, 1) ==> names == []
      ensures !Hits(fault, 1) ==> StrictlySorted(names) && |names| == |savedConnections|
      ensures !Hits(fault, 1) ==> forall n :: n in names <==> HasConnection(State(), n)
    {
      if FailsAt(fault, 0) {
        return [];
      }
      ConnectionNamesListed(State());
      names := ConnectionNames(State());
    }

    /** Loads a saved connection: None when the name is unknown or the query fails. */
    method LoadConnectionInfo(name: string, fault: Fault) returns (info: Option<ConnectionInfo>)
      requires Valid(State())
      ensures info.Some? <==> !Hits(fault, 1) && HasConnection(State(), name)
      ensures info.Some? ==> info == LoadConnection(State(), name) && info.value.name == name
      ensures info.Some? ==> exists i :: 0 <= i < |savedConnections| &&
                               savedConnections[i].name == name && savedConnections[i].settings == info.value.settings
    {
      if FailsAt(fault, 0) {
        return None;
      }
      var found := ConnectionIndex(savedConnections, name);
      if found.None? {
        return None;
      }
      var row := savedConnections[found.value];
      info := Some(ConnectionInfo(row.name, row.settings));
    }

    /** Deletes a saved connection by name; success only when a row was deleted. */
    method DeleteConnectionInfo(name: string, fault: Fault) returns (ok: bool, msg: Message)
      requires Valid(State())
      modifies this
      ensures Valid(State())
      ensures ok <==> HasConnection(old(State()), name) && !Hits(fault, 2)
      ensures !Hits(fault, 2) ==> State() == DeleteConnection(old(State()), name)
      ensures Hits(fault, 2) ==> State() == old(State())
      ensures msg == if Hits(fault, 2) then ConnectionDeleteFailed(name, ErrorText(fault))
                     else if ok then ConnectionDeleted(name) else ConnectionNotFound(name)
    {
      var saved := State();
      if FailsAt(fault, 0) {                                  // DELETE FROM saved_connections
        ok, msg := false, ConnectionDeleteFailed(name, ErrorText(fault));
        return;
      }
      var found := ConnectionIndex(savedConnections, name);
      var rowCount := 0;
      if found.Some? {
        var k := found.value;
        savedConnections := savedConnections[..k] + savedConnections[k + 1..];
        rowCount := 1;
      }
      if FailsAt(fault, 1) {                                  // COMMIT
        RollBack(saved);
        ok, msg := false, ConnectionDeleteFailed(name, ErrorText(fault));
        return;
      }
      DeleteConnectionWellFormed(saved, name);
      if rowCount > 0 {
        ok, msg := true, ConnectionDeleted(name);
      } else {
        ok, msg := false, ConnectionNotFound(name);
      }
    }

    /**
     * Updates a saved connection, possibly renaming it. Refused, with nothing
     * changed, when the original name is unknown or the new name belongs to
     * another row; otherwise the same row takes the new name and settings.
     */
    method UpdateConnectionInfo(originalName: string, newName: string, dbType: string,
                                params: map<string, string>, fault: Fault) returns (ok: bool, msg: Message)
      requires Valid(State())
      modifies this
      ensures Valid(State())
      ensures Hits(fault, UpdateStatements(old(State()), originalName, newName)) ==>
                !ok && State() == old(State()) && msg == ConnectionUpdateFailed(originalName, ErrorText(fault))
      ensures !Hits(fault, UpdateStatements(old(State()), originalName, newName)) ==>
                && State() == UpdateConnection(old(State()), originalName, newName, dbType, params)
                && (ok <==> CheckUpdate(old(State()), originalName, newName) == UpdateAllowed)
                && msg == match CheckUpdate(old(State()), originalName, newName)
                          case OriginalMissing => ConnectionNotFound(originalName)
                          case NewNameTaken => ConnectionNameTaken(newName)
                          case UpdateAllowed => ConnectionUpdated(originalName, newName)
    {
      var saved := State();
      if FailsAt(fault, 0) {                                  // SELECT id ... WHERE name = :original_name
        ok, msg := false, ConnectionUpdateFailed(originalName, ErrorText(fault));
        return;
      }
      var found := ConnectionIndex(savedConnections, originalName);
      if found.None? {
        ok, msg := false, ConnectionNotFound(originalName);
        return;
      }
      var k := found.value;
      var step := 1;
      if originalName != newName {
        if FailsAt(fault, 1) {                                // SELECT id ... WHERE name = :new_name
          ok, msg := false, ConnectionUpdateFailed(originalName, ErrorText(fault));
          return;
        }
        if ConnectionIndex(savedConnections, newName).Some? {
          ok, msg := false, ConnectionNameTaken(newName);
          return;
        }
        step := 2;
      }
      if FailsAt(fault, step) {                               // UPDATE saved_connections
        ok, msg := false, ConnectionUpdateFailed(originalName, ErrorText(fault));
        return;
      }
      savedConnections := savedConnections[k := ConnectionRow(savedConnections[k].id, newName, SettingsFrom(dbType, params))];
      if FailsAt(fault, step + 1) {                           // COMMIT
        RollBack(saved);
        ok, msg := false, ConnectionUpdateFailed(originalName, ErrorText(fault));
        return;
      }
      UpdateConnectionWellFormed(saved, originalName, newName, dbType, params);
      ok, msg := true, ConnectionUpdated(originalName, newName);
    }
  }
}
