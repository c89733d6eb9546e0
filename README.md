# db_management core, modelled in Dafny

`db_utils.py` is the data layer of a small database-administration tool. It
keeps a **metadata catalog** in SQLite with three relations:

- `mapping_configs`: named column-mapping headers;
- `column_mappings`: their detail rows, one source column to one target column;
- `saved_connections`: named connection settings.

Each relation uses `AUTOINCREMENT` ids. The same file also:

- migrates a table's mapped columns from a source database to a target database, chunk by chunk;
- builds and runs a parameterised single-row `INSERT`;
- builds connection URLs.

This project models that core and proves what it promises.

| file | module | what it holds |
|---|---|---|
| `common.dfy` | `Common` | Options and results. Storage faults (`FailAt(step, error)`: statement number `step` of a call raises). The database errors and the `(ok, message)` message kinds. Python dicts as insertion-ordered item lists (`Dict`, `Keys`, `ToMap`). |
| `lex_order.dfy` | `LexOrder` | The order of `ORDER BY name` under SQLite's BINARY collation, and an insertion sort `SortNames` proved to be a sorted permutation. |
| `catalog.dfy` | `Catalog` | The catalog as a value (`Store`: three relations in rowid order plus three AUTOINCREMENT counters). It has one function per operation and query, and the lemmas about them. |
| `metadata_store.dfy` | `MetadataStore` | The class `MetadataStore`: the same relations as fields, changed statement by statement. Each method is proved to end in the state the `Catalog` function gives, or to roll back completely. |
| `cascade.dfy` | `Cascade` | `ON DELETE CASCADE` against a SQLite that does not enforce foreign keys. Proves that the orphans left behind are never observable. |
| `migration.dfy` | `Migration` | Source and target databases (class `Database`), the chunked read, the rename, the appending writes, and `MigrateData` with its loop. |
| `records.dfy` | `Records` | The `INSERT` builder, a reader for the statement it builds, and `InsertRecord`. |
| `connection_strings.dfy` | `ConnectionStrings` | The PostgreSQL and SQLite URL builders, the dispatch on the database type, and the `schema.table` split. |

### How failures are modelled

A call that writes runs its statements in one transaction. A `Fault` names the statement that raises, counting from 0 with the commit last.

- Catalog writes are all-or-nothing. Either every statement runs and the store reaches the state the `Catalog` function gives, or the store is restored exactly, AUTOINCREMENT counters included.
- `migrate_data` is not all-or-nothing: each `to_sql` call commits its own chunk. A failure at a later chunk therefore leaves the earlier chunks written. `FailedMigrationCommitsWholeChunks` proves that what stays written is always a whole number of chunks.
- Queries that swallow errors answer `[]`, `None` or `(None, None)` when their SELECT raises.

## Model

| member | source | states |
|---|---|---|
| Common.ToMap | db_utils.py:430 | The dict built from `(key, value)` pairs has exactly their keys. |
| Common.ToMapLatest | db_utils.py:430 | In the dict built from `(key, value)` pairs, a key whose pair no later pair repeats maps to that pair's value: the last pair for a key wins. |
| Common.ToMapAt | db_utils.py:430 | For a dict with distinct keys, every item's key maps to that item's value. |
| Common.Keys | db_utils.py:816 | `list(d.keys())`: one key per item, in insertion order. |
| LexOrder.SortNames | db_utils.py:387 | The names returned by `ORDER BY name` are a permutation of the stored names, in non-decreasing BINARY-collation order. |
| LexOrder.InsertSorted | db_utils.py:387 | Placing one more name into a sorted list keeps the list sorted. |
| LexOrder.SortDistinct | db_utils.py:387 | Sorting distinct names (as the UNIQUE constraint guarantees) gives a strictly increasing list with exactly those names. |
| LexOrder.LexLessTransitive | db_utils.py:387 | The collation order is transitive. |
| LexOrder.LexLessTotal | db_utils.py:387 | The collation order is total: any two different names are ordered one way or the other. |
| Catalog.EmptyStore | db_utils.py:227-271 | Freshly created relations are empty and satisfy every catalog invariant. |
| Catalog.SaveMappingValid | db_utils.py:302-372 | Saving a mapping keeps the catalog valid: names unique, ids distinct and below their counters, every detail row owned by a header. |
| Catalog.LoadAfterSaveMapping | db_utils.py:408-439 | Loading a mapping right after saving it returns the saved header, and the mapping dict of the entries whose two column names are both non-empty. |
| Catalog.PersistedMapEntries | db_utils.py:357-366 | Every entry with two non-empty names is stored with its value. Every stored source column comes from such an entry. |
| Catalog.PersistedMembers | db_utils.py:357-358 | The entries that get a detail row are exactly the entries whose source and target names are both non-empty. |
| Catalog.SaveMappingOverwrites | db_utils.py:311-333 | Re-saving an existing name updates its header in place, under the same id and position. All of its old detail rows are replaced by the new entries, and every other header is unchanged. |
| Catalog.SecondSaveReplaces | db_utils.py:302-372 | Saving a name twice leaves exactly what the second save says, under the id of the first save. |
| Catalog.SaveMappingKeepsOthers | db_utils.py:302-372 | Saving one mapping does not change what any other mapping name loads. |
| Catalog.DeleteMappingValid | db_utils.py:457-470 | Deleting a mapping (its header plus, by cascade, its detail rows) keeps the catalog valid. |
| Catalog.DeleteMappingRemoves | db_utils.py:457-470 | After a delete the name loads `(None, None)` and is not listed, and none of its detail rows remain. Deleting again changes nothing. Other names load as before. |
| Catalog.DeleteMappingKeepsOthers | db_utils.py:457-470 | Deleting one mapping does not change what any other mapping name loads. |
| Catalog.MappingNamesListed | db_utils.py:384-389 | The mapping names are listed strictly sorted, one per header, and a name is listed exactly when a mapping of that name exists. |
| Catalog.SaveConnectionUpserts | db_utils.py:489-545 | Saving a connection updates an existing row in place or appends a new row with the next id. Either way the name then loads the saved settings, and other rows and the mapping relations do not change. |
| Catalog.DeleteConnectionRemoves | db_utils.py:607-620 | After a delete the connection name loads nothing and is not listed, and exactly one row is gone when it existed. Deleting again changes nothing. Every other name loads the same settings as before, and the mapping relations are unchanged. |
| Catalog.DeleteConnectionKeepsOthers | db_utils.py:607-620 | Deleting one connection does not change what any other connection name loads. |
| Catalog.ConnectionNamesListed | db_utils.py:557-565 | The connection names are listed strictly sorted, one per row, and a name is listed exactly when that connection exists. |
| Catalog.UpdateConnectionEffect | db_utils.py:636-688 | The update refuses a missing original name. It refuses a rename onto a name already in use, and then leaves the store unchanged. Otherwise the same row, with the same id, takes the new name and settings; the old name no longer loads and no other row changes. |
| Catalog.UpdateConnectionWellFormed | db_utils.py:649-656 | The rename-collision check keeps connection names unique. |
| MetadataStore.MetadataStore.constructor | db_utils.py:227-271 | A new store is the empty catalog. |
| MetadataStore.MetadataStore.SaveColumnMapping | db_utils.py:302-372 | Succeeds exactly when no statement or the commit fails. On success the store is the saved catalog; on failure it is exactly as before and the message carries the error. |
| MetadataStore.MetadataStore.SaveHeader | db_utils.py:306-347 | For an existing name, deletes its detail rows and updates its header under the same id. For a new name, appends a header with the next id. It fails exactly when one of those statements raises. |
| MetadataStore.MetadataStore.InsertDetailRows | db_utils.py:357-366 | Inserts one detail row per entry with two non-empty names, in dict order, with consecutive new ids. Nothing else changes. |
| MetadataStore.MetadataStore.InsertDetailRow | db_utils.py:359-366 | One insert appends a detail row with the next detail id under the given header, and changes nothing else. |
| MetadataStore.MetadataStore.GetMappingConfigNames | db_utils.py:384-393 | Returns the mapping names strictly sorted, exactly the stored ones, or `[]` when the query fails. |
| MetadataStore.MetadataStore.LoadColumnMapping | db_utils.py:408-443 | Returns the header and mapping dict of the named mapping, `(None, None)` when it is missing, or `(None, None)` when a query fails. |
| MetadataStore.MetadataStore.DeleteColumnMapping | db_utils.py:457-470 | Reports success exactly when the mapping existed and the delete committed. The store is the catalog after the delete, or unchanged on failure, and the message tells which. |
| MetadataStore.MetadataStore.SaveConnectionInfo | db_utils.py:489-545 | Commits the upsert of the connection or leaves the store unchanged, and reports which. |
| MetadataStore.MetadataStore.GetConnectionNames | db_utils.py:557-565 | Returns the connection names strictly sorted, exactly the stored ones, or `[]` when the query fails. |
| MetadataStore.MetadataStore.LoadConnectionInfo | db_utils.py:579-594 | Returns the settings stored under the name, or None when the name is missing or the query fails. |
| MetadataStore.MetadataStore.DeleteConnectionInfo | db_utils.py:607-620 | Reports success exactly when the connection existed and the delete committed. The store is the catalog after the delete, or unchanged on failure. |
| MetadataStore.MetadataStore.UpdateConnectionInfo | db_utils.py:636-688 | Gives "not found" for a missing original and "name taken" for a rename collision, changing nothing. Otherwise it commits the update. A failing statement rolls everything back. |
| Cascade.OrphansLeft | db_utils.py:260-268 | Without foreign-key enforcement, deleting a mapping that has detail rows really does leave rows owned by no header. |
| Cascade.DeleteSameView | db_utils.py:447-448 | The cascading delete and the header-only delete leave stores that agree on every header and on the detail rows of every existing header. |
| Cascade.SaveSameView | db_utils.py:302-372 | A save preserves that agreement, because a new header always takes a fresh id and never adopts orphans. |
| Cascade.RunSameView | db_utils.py:447-448 | After any sequence of catalog writes, the cascading store and the orphaning store agree in that sense. |
| Cascade.OrphansUnobservable | db_utils.py:447-448 | After any sequence of catalog writes from a valid store, every load and every name listing answers the same with and without the cascade. |
| Cascade.RunValid | db_utils.py:267 | With the cascade, every sequence of catalog writes keeps every detail row owned by a header. |
| Migration.Select | db_utils.py:819-823 | Reading the mapped columns gives one projected row per source row, in order. It fails exactly when the table or one of the columns is missing. |
| Migration.MissingColumn | db_utils.py:819-823 | Finds a listed column the table lacks, and finds none exactly when every listed column is present. |
| Migration.RenameRow | db_utils.py:829 | A renamed row has exactly the target column names as its columns. |
| Migration.RenamedValue | db_utils.py:829 | Under a target name that no later entry reuses, the renamed row holds the value of its source column. |
| Migration.Database.AppendFrame | db_utils.py:832-837 | An append adds the rows to the target table in order, each filled out with the column defaults, creating the table (with no defaults) when it is missing. It fails without writing when the table lacks a column or the statement raises. |
| Migration.MigrateData | db_utils.py:815-840 | The outcome, the message and the final target tables are exactly the migration's outcome. The source database is not modified. |
| Migration.TransferChunks | db_utils.py:825-838 | Appending the selected rows chunk by chunk leaves the target with the same rows as one append of the chunks written so far. The loop stops at the first failing chunk. |
| Migration.TransferStops | db_utils.py:825-838 | When chunk `i` is the first to fail, the migration fails with that chunk's error, and the target keeps the chunks before it. |
| Migration.TransferCompletes | db_utils.py:825-840 | When no append fails, the migration succeeds, reports every row and appends all of them renamed. |
| Migration.ChunksConcat | db_utils.py:825 | The chunks, concatenated, are exactly the selected rows. |
| Migration.ChunkSizes | db_utils.py:825 | Every chunk holds at most `chunksize` rows, and no chunk of a non-empty result is empty. |
| Migration.ChunksShape | db_utils.py:825 | The number of chunks is the rows divided by the chunk size, rounded up. |
| Migration.ChunkBounds | db_utils.py:825 | Each chunk is the slice of rows between consecutive chunk starts, and it is non-empty when there are rows. |
| Migration.MigrationOutcome | db_utils.py:815-840 | An empty column map is refused and writes nothing; a missing source table or column fails and writes nothing. Any successful migration appended every selected row and reports their number. |
| Migration.MigrationAppendsAll | db_utils.py:815-840 | Without a storage fault and with an appendable target, the migration succeeds and reports one row per source row. The target table ends as its old rows followed by the renamed source rows in order, and every other table is unchanged. |
| Migration.MigratedRowValues | db_utils.py:829-837 | The k-th appended row holds, under each target name, the value of its source column in the k-th source row. Every other column of the target table holds its DEFAULT (NULL when it has none). |
| Migration.WidenedRename | db_utils.py:829-837 | A renamed row written into a table holds each target name's source value, and the table's default under every column the map does not fill. |
| Migration.ChunkSizeIrrelevant | db_utils.py:825 | Without a fault, the chunk size does not change the result. |
| Migration.FailedMigrationCommitsWholeChunks | db_utils.py:825-840 | A failed migration leaves the target holding its old rows plus a whole number of chunks of renamed rows. |
| Records.GenerateInsertStatement | db_utils.py:860-868 | An empty dict gives no statement and the empty-data message. Any other dict gives a non-empty statement with the dict itself unchanged as the parameters. For plain names the statement reads back as the table, the keys in dict order and one placeholder per key. |
| Records.GeneratedParses | db_utils.py:863-867 | The statement built for a non-empty dict of plain names reads back as its table, its keys and their placeholders. |
| Records.InsertTextParses | db_utils.py:863-867 | The generated statement reads back as the table, the keys in dict order, and one `:key` placeholder per key. |
| Records.JoinRoundTrip | db_utils.py:863 | Joining with `", "` and splitting again gives back the items. |
| Records.BindPlaceholders | db_utils.py:865 | Each `:key` placeholder binds to the value of its key. |
| Records.InsertAddsRecord | db_utils.py:888-891 | Executing the generated statement fails on a missing table or column. Otherwise it appends exactly one row: the dict's values under its keys and each other column's DEFAULT (NULL when it has none), with every other table unchanged. |
| Records.WidenedRecord | db_utils.py:888-891 | The row an insert stores has exactly the table's columns, each key's value under that key, and every other column's default. |
| Records.InsertRecord | db_utils.py:884-895 | Refuses an empty dict without touching the database. Otherwise it commits the generated insert (columns outside the dict take their DEFAULT), or reports its error and leaves the tables unchanged. |
| ConnectionStrings.PostgresUrl | db_utils.py:11-13 | The PostgreSQL URL starts with the `postgresql://` scheme, and the model's first-delimiter reader recovers the arguments it was built from when the fields hold none of the delimiters that follow them, so the builder is injective on such fields. |
| ConnectionStrings.SqliteUrl | db_utils.py:16-18 | The model's SQLite reader (everything after the scheme) recovers the database path from the URL for every path, so the builder is injective. This reader is not the driver's URL grammar. |
| ConnectionStrings.SqliteUrlsAreBuilt | db_utils.py:16-18 | Every string the model's SQLite reader accepts is the URL built from the path it reads, so that reader and the builder are inverse. |
| ConnectionStrings.Missing | db_utils.py:86-89 | The missing keyword arguments are exactly the required names absent from the parameter dict. |
| ConnectionStrings.ConnectionUrl | db_utils.py:86-91 | A URL is built exactly when the type is `postgresql` or `sqlite` and its builder's arguments are present. Any other type is refused as unsupported, and missing arguments are refused with a non-empty list of absent names. The model's reader recovers the path from a SQLite URL, and the parameters from a PostgreSQL URL when they hold no delimiters. |
| ConnectionStrings.SplitQualifiedName | db_utils.py:179 | A name without a dot is the table in the default schema. One dot splits it into a dot-free schema and table that rejoin to the name, and two or more dots are an error. |
| ConnectionStrings.QualifiedNameRoundTrip | db_utils.py:179 | Joining a schema and a table with a dot and splitting again gives them back. |

## Left out

- The user interface, `state.py` and the `views/` files are not part of this model. Neither are the `__main__` block or the connection tests (`test_postgres_connection`, `test_sqlite_connection`): they only open a connection and run `SELECT 1`.
- The engine creation inside `get_db_engine` is left out, since it is network I/O. Only its dispatch on the database type is modelled, and that is where its `ValueError` comes from.
- `get_table_names` and `get_table_columns` are left out as schema introspection through the driver. Only the `schema.table` split in `get_table_columns` is modelled.
- Message texts are one constructor per message template; the Japanese wording is not reproduced. Exception texts are opaque strings supplied by the fault.
- The `created_at` columns are not modelled: their values come from the clock.
- Concurrent connections are not modelled: each call runs alone.
- Headers with NULL URL fields are not modelled; those columns are always given a string.
- `create_metadata_tables_if_not_exists` is modelled as the `MetadataStore` constructor and `Catalog.EmptyStore`. Its `IF NOT EXISTS` on an already populated store is not modelled.
- `MetadataStore.MetadataStore.SaveColumnMapping` takes `lastrowid` to be the new header's id and the `if config_id:` test to be always true. SQLite never hands out rowid 0 under AUTOINCREMENT.
- The `DELETE` of `delete_column_mapping` is modelled with the cascade its docstring and schema describe. SQLite only enforces it when foreign keys are switched on, which the program never does. Module `Cascade` models the deletion that does run, and proves the two cannot be told apart through the catalog's operations.
- `Migration.MigrateData` reads the source as one snapshot and then writes it chunk by chunk. Reading the next chunk lazily, interleaved with the writes, is not modelled. The source and the target are modelled as two separate databases. When both URLs name the same database, the writes could change what a later chunk reads, and that case is not modelled.
- `Migration.RenameRow`: when a column map sends two source columns to the same target name, the later pair's value is kept. pandas would produce a frame with a duplicated column that `to_sql` rejects, and that rejection is not modelled.
- `Migration.MigratedRowValues` is stated only for a target name that no later pair of the map reuses.
- Column types and value conversion by pandas and the drivers (integer widths, floats, dates) are not modelled. Values are `Null`, `Int`, `Real` or `Text` and are copied unchanged.
- SQL identifier grammar and quoting are not modelled: the `SELECT` that `migrate_data` builds by string formatting, and the `INSERT` text, are not parsed by a real SQL parser.
- `Records.InsertAddsRecord` and `Records.InsertTextParses` are stated only for table names without `(` and keys without `,` or `)`. The statement reader splits at those characters, and names that contain them make the statement read differently.
- `ConnectionStrings.PostgresUrl` and `ConnectionStrings.ConnectionUrl` state the read-back only when the user and host contain no `:`, the password no `@` and the port no `/`. The builders do not percent-encode, so other values produce a URL that means different fields.
- `ConnectionStrings.SqliteUrl`, `ConnectionStrings.PostgresUrl` and `ConnectionStrings.ConnectionUrl` read URLs back with this model's own first-delimiter readers, not with the driver's URL grammar (`create_engine`, db_utils.py:37, 58, 94). That grammar gives more characters a meaning: a `?` in a SQLite path or a PostgreSQL database name starts the query string, so `sqlite:///a?b.db` opens `a`. A `/` in a PostgreSQL user or host, or a `?` in the host or port, also ends that field early. The contracts therefore show that the builders are injective, not what database the driver opens for such names.
- The `if not statement` check in `insert_record` is not modelled as a branch. `Records.GenerateInsertStatement`'s contract proves that a non-empty dict always yields a non-empty statement, so the check never fires.
- A missing keyword argument to a URL builder raises `TypeError` listing the missing names. The model gives the list of names but not the wording.
- A failure to open the connection is not modelled; every call is assumed to connect. `save_column_mapping`, `save_connection_info` and `update_connection_info` open it outside their `try` (db_utils.py:302, 489, 636), so that exception leaves the call without a message. `delete_column_mapping` and `delete_connection_info` open it inside the `try`, so their handler then refers to a connection that was never bound (db_utils.py:468-469, 618-619). `MetadataStore.MetadataStore.SaveColumnMapping`, `MetadataStore.MetadataStore.SaveConnectionInfo`, `MetadataStore.MetadataStore.UpdateConnectionInfo`, `MetadataStore.MetadataStore.DeleteColumnMapping` and `MetadataStore.MetadataStore.DeleteConnectionInfo` model only calls whose connection opens.
- Column defaults are constants. Defaults the database computes (a fresh rowid for an `INTEGER PRIMARY KEY`, `CURRENT_TIMESTAMP`) are not modelled. `NOT NULL`, `UNIQUE` and `CHECK` violations are not derived from the schema: they are the storage fault on that statement.
