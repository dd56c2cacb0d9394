# Material-location table, modelled and verified in Dafny

The system tracks where materials sit in a warehouse. Its core is one
relational table, `material_locations`, and the CRUD and batch functions over
it. The repository holds two independent revisions of that table and its
functions, and this project models each one on its own:

- **`WmsLocations`** (`wms_locations.dfy`) models
  `wms_service/crud.py`. A record has a surrogate `id`, a nullable
  `material_id`, a `tray_number`, a nullable `process_id` and `task_id`, and a
  `status` string. Every create and every update passes the material id
  through the status classification in **`WmsStatus`** (`wms_status.dfy`):
  `"-99"` or `"-1"` means `disabled`, a non-blank id means `active`, and
  anything else means `empty` with the id stored as NULL.
- **`AppLocations`** (`app_locations.dfy`) models `app/crud.py`. A record has
  an `id`, an `item_id`, a `tray_id` and a `process_info`. Clearing writes
  `""` into `item_id`.
- **`Common`** (`common.dfy`) holds what both share: `Option` for nullable
  values, `Field` for a field of a partial patch (`Unset` when the request
  leaves it out, `Set(v)` when it names it, with `v` possibly null), and the
  store's `WHERE … OFFSET … LIMIT` query shape.

The table is a class (`WmsLocations.LocationTable`,
`AppLocations.LocationStore`) holding a `map<int, Location>` from id to row.
Each CRUD function is a method that changes that map in one atomic step and
states the new map as a function of the old one. The specification functions
beside each class (`Updated`, `BatchUpdated`, `BulkUpdated`, `ClearedTray`, …)
carry the properties, proved as lemmas.

Two facts about the store are made explicit:

- **Row order.** The queries have no `ORDER BY`, so the order rows come back
  in is the engine's. Every query takes that order as a parameter `scan`, a
  sequence of row ids. `IsScanOf(rows, scan)` says it lists every row exactly
  once. Results are stated for every such order.
- **Returned rows.** Each batch function returns rows as they stand when it
  ends, but the five reach that state differently:
  - The newer revision's batch update (`wms_service/crud.py:99-121`) and
    clear by ids (`wms_service/crud.py:123-129`) call the single-row update
    or clear once per entry, and each call commits. The list they return holds
    the session's live row objects, so a row that two entries touch shows its
    final state in both places. The result follows the input order.
  - The newer revision's clear by tray (`wms_service/crud.py:131-146`)
    changes every row on the tray and commits once. It returns those rows in
    the order the tray query gave them.
  - The older revision's batch update and batch clear (`app/crud.py:48-72`,
    `app/crud.py:74-90`) commit once and then re-fetch the changed rows with
    `id IN (...)` (`app/crud.py:70`, `app/crud.py:89`). They return the rows
    in the store's order, which is `AppLocations.Fetch`, not in input order.

New ids: the older revision runs on SQLite with an `INTEGER PRIMARY KEY`,
which takes one more than the largest id present, or 1 in an empty table
(`AppLocations.NextRowId`). The newer revision's engine setup
(`database/database_config.py`) is not part of this model; its ids come from
a counter `nextId` that only grows, so no id is reused.

Python's `str.strip()` is written out over the characters `str.isspace`
accepts (`WmsStatus.IsSpace`).

## Model

| member | source | states |
|---|---|---|
| Common.SelectIds | wms_service/crud.py:36 | The rows a `WHERE` clause selects, in scan order: each selected id names a row that satisfies the clause and appears in the scan; no more ids than the scan visits. |
| Common.SelectIdsComplete | wms_service/crud.py:36 | No matching row is missed: a row the scan visits that satisfies the clause is selected. |
| Common.SelectIdsNone | app/crud.py:75-78 | A clause that no row satisfies selects nothing. |
| Common.SelectIdsNoDuplicates | app/crud.py:70 | A scan that visits each row once selects each row at most once. |
| Common.SelectIdsExactly | app/crud.py:70 | Over a scan of the whole table, an id is selected exactly when its row exists and satisfies the clause, and it is selected once. |
| Common.SelectIdsAgree | wms_service/crud.py:35-39 | The selection depends only on what the clause says about the rows: two tables with the same ids, and clauses that agree on them, select the same ids. |
| Common.RowsOf | wms_service/crud.py:157 | The rows for a list of ids, one per id, in the order of the ids. |
| Common.Get | wms_service/crud.py:32-33 | Lookup by primary key, as in `get_location` and in `get_material_location` (app/crud.py:5-6): the record with that id when one exists, nothing otherwise. |
| Common.Page | wms_service/crud.py:157 | `OFFSET skip LIMIT limit`: at most `limit` elements, element `i` is input element `skip + i`, nothing when `skip` is past the end, and exactly `min(limit, length - skip)` elements otherwise. |
| Common.Query | wms_service/crud.py:148-157 | A filtered, paged query returns the whole window of the matching rows: `min(limit, matches - skip)` rows (none when `skip` passes the matches), and row `i` is match `skip + i` in scan order; each is a stored row that satisfies the clause. |
| Common.QueryFindsEveryMatch | app/crud.py:8-15 | From offset 0, with a limit no smaller than the table, every matching row is in the result. |
| WmsStatus.StripLeading | wms_service/crud.py:21 | `lstrip`: the result is a suffix of the input, does not start with whitespace, and only whitespace was removed. |
| WmsStatus.StripTrailing | wms_service/crud.py:55 | `rstrip`: the result is a prefix of the input, does not end with whitespace, and only whitespace was removed. |
| WmsStatus.BlankIffAllSpace | wms_service/crud.py:21 | A material id strips to nothing exactly when every one of its characters is whitespace. |
| WmsStatus.Classify | wms_service/crud.py:19-25 | Status `empty` holds exactly when the stored material id is NULL; a stored id is the one given; the stored id is NULL or non-blank. |
| WmsStatus.ClassifyCases | wms_service/crud.py:19-25 | `disabled` iff the id is `"-99"` or `"-1"`; `active` iff it is another id with a non-whitespace character; `empty` iff it is NULL or all whitespace; no other status. |
| WmsStatus.ClassifyIdempotent | wms_service/crud.py:52-59 | Classifying a stored material id again changes neither the status nor the id. |
| WmsLocations.NewLocation | wms_service/crud.py:16-25 | The created record keeps the tray, process and task ids; its material id is NULL or non-blank; status `empty` iff the material id is NULL. The status is the one the material id classifies to, so the incoming status is ignored. |
| WmsLocations.CreateStatus | wms_service/crud.py:16-25 | A created record's status depends only on the material id: `disabled` for `"-99"`/`"-1"`, `active` for a non-blank id, otherwise `empty` with the id stored as NULL. |
| WmsLocations.Patched | wms_service/crud.py:46-48 | The assignment loop keeps the record's id, and every field the patch leaves unset keeps its old value. |
| WmsLocations.KeepsExplicitStatus | wms_service/crud.py:65-72 | The explicit status is kept only when the patch gives a non-null status; a patch that names the material id, or no status, never keeps it. |
| WmsLocations.PatchedAlgebra | wms_service/crud.py:46-48 | The empty patch assigns nothing, and assigning the same patch twice gives what assigning it once gives. |
| WmsLocations.Updated | wms_service/crud.py:41-72 | An update keeps the record's id and leaves its material id NULL or non-blank. |
| WmsLocations.ClassifyKeepsNormal | wms_service/crud.py:52 | An update that does not name the material id leaves a stored id as it is. |
| WmsLocations.UpdateFieldwise | wms_service/crud.py:46-59 | Tray, process and task ids take the patch's value when the patch names them and keep the old value otherwise; the material id is the patched one, or NULL when that is blank. |
| WmsLocations.UpdateStatus | wms_service/crud.py:52-72 | An explicit non-null status is kept only when the patch leaves the material id out; otherwise the status is recomputed from the material id, and `empty` iff it is NULL. |
| WmsLocations.UpdateIdempotent | wms_service/crud.py:41-77 | Applying the same patch twice gives the same record as applying it once. |
| WmsLocations.Cleared | wms_service/crud.py:87-93 | Clearing sets material, process and task ids to NULL and the status to `empty`, and keeps id and tray. |
| WmsLocations.ClearIsUpdate | wms_service/crud.py:87-93 | A clear is the update that sets material, process and task ids to NULL; clearing twice is clearing once. |
| WmsLocations.MatchesFilter | wms_service/crud.py:150-155 | No criteria match every record; otherwise a record matches exactly when it is on the given tray, holds the given material and has the given status, each only when given. |
| WmsLocations.QueryLocations | wms_service/crud.py:148-157 | The whole offset/limit window of the records matching every given filter: `min(limit, matches - skip)` records, record `i` being match `skip + i` in scan order, each a stored record that matches. |
| WmsLocations.LocationsByTray | wms_service/crud.py:35-36 | `min(limit, matches - skip)` records, each a stored record on that tray. |
| WmsLocations.LocationsByMaterial | wms_service/crud.py:38-39 | `min(limit, matches - skip)` records, each a stored record holding that material. |
| WmsLocations.GettersAreQueries | wms_service/crud.py:35-39 | The by-tray and by-material getters return what the filter query returns with only that filter. |
| WmsLocations.QueryLocationsComplete | wms_service/crud.py:148-157 | From offset 0, with a limit covering the table, every record matching all filters is returned. |
| WmsLocations.BatchUpdated | wms_service/crud.py:99-121 | A batch update keeps the table's set of ids. |
| WmsLocations.AppliedIds | wms_service/crud.py:99-121 | The ids a batch update reports exist in the table, at most one per entry. |
| WmsLocations.AppliedIdsExactly | wms_service/crud.py:101-118 | An id is reported exactly when some entry has that id, dictionary data and an existing row; entries without id or data, or with non-dictionary data, are skipped. |
| WmsLocations.BatchUpdatedFrame | wms_service/crud.py:99-121 | A row no entry applies to is left as it was. |
| WmsLocations.BatchUpdatedWellFormed | wms_service/crud.py:99-121 | A batch update keeps every row under its own id with a NULL or non-blank material id. |
| WmsLocations.ClearedIds | wms_service/crud.py:123-129 | Clearing a list of ids clears each listed existing row and leaves every other row alone. |
| WmsLocations.ClearedIdsStep | wms_service/crud.py:125-128 | Clearing one more id of the list clears that row on top of the earlier clears. |
| WmsLocations.ExistingIds | wms_service/crud.py:125-128 | The listed ids that exist, in list order: each names a row, and there are no more of them than listed ids. |
| WmsLocations.ExistingIdsExactly | wms_service/crud.py:125-128 | An id is among them exactly when it is listed and names a row. |
| WmsLocations.ExistingIdsAll | wms_service/crud.py:132-134 | When every listed id names a row, as on a tray query's result, all are kept, in order. |
| WmsLocations.ClearedRecords | wms_service/crud.py:125-129 | The records a clear by ids returns: one per listed existing id, in list order, each the cleared form of the original row. |
| WmsLocations.ClearedRecordsStep | wms_service/crud.py:126-128 | One more existing listed id adds its cleared row at the end of the result. |
| WmsLocations.ClearAfterClearedIds | wms_service/crud.py:87-93 | Clearing a row that an earlier clear of the batch already cleared gives the same record as clearing it once. |
| WmsLocations.ClearedTrayRecords | wms_service/crud.py:132-139 | The rows a tray clear returns are the tray's rows, each once, in the tray query's order, each as the cleared table holds it. |
| WmsLocations.ClearedTray | wms_service/crud.py:131-139 | Clearing a tray clears every row on that tray and no other row. |
| WmsLocations.ClearedTrayByIds | wms_service/crud.py:132-139 | Clearing the ids the tray query selects is clearing the tray. |
| WmsLocations.LocationTable.Create | wms_service/crud.py:16-30 | Adds one record under a fresh id, built as `NewLocation` says; no other row changes. |
| WmsLocations.LocationTable.Update | wms_service/crud.py:41-77 | Missing id: returns nothing and the table is unchanged. Otherwise: the row becomes `Updated(old row, patch)`, is returned, and no other row changes. |
| WmsLocations.LocationTable.Delete | wms_service/crud.py:79-85 | Removes exactly the record with that id and returns it, or returns nothing and changes nothing. |
| WmsLocations.LocationTable.Clear | wms_service/crud.py:87-97 | Clears and returns an existing record, no other row changes; a missing id returns nothing and changes nothing. |
| WmsLocations.LocationTable.BatchUpdate | wms_service/crud.py:99-121 | The table becomes `BatchUpdated`; the result holds the final row of each applied entry, one per entry, in input order. |
| WmsLocations.LocationTable.BatchClearByIds | wms_service/crud.py:123-129 | The table becomes `ClearedIds`; the result is `ClearedRecords`, and each record in it is the row's final state, in list order. |
| WmsLocations.LocationTable.BatchClearByTray | wms_service/crud.py:131-146 | The table becomes `ClearedTray`; the result holds each row of the tray once, cleared, in the store's order. |
| AppLocations.NextRowId | app/models.py:9 | The id SQLite gives a new row: not in use, larger than every id in use, one more than the largest, or 1 in an empty table. |
| AppLocations.NewLocation | app/crud.py:17-22 | The created record has the given id, item id, tray id and process information. |
| AppLocations.Patched | app/crud.py:31-33 | The record after the assignments of an update keeps its id; each column the patch names takes the patch's value, an explicit null included, and each column it leaves out keeps its old value. |
| AppLocations.ClearPatch | app/crud.py:45-46 | The clear's patch sets the item id to `""` and nothing else. |
| AppLocations.PatchAlgebra | app/crud.py:28-36 | Two updates are one update whose patch takes the later value of each field; repeating an update changes nothing more; an empty patch changes nothing. |
| AppLocations.ClearKeepsTray | app/crud.py:45-46 | Clearing sets the item id to `""` and keeps the tray id and process information. |
| AppLocations.LocationsByItem | app/crud.py:8-9 | `min(limit, matches - skip)` records, each a stored record with that item id. |
| AppLocations.LocationsByTray | app/crud.py:11-12 | `min(limit, matches - skip)` records, each a stored record with that tray id. |
| AppLocations.AllLocations | app/crud.py:14-15 | `min(limit, rows scanned - skip)` records, each a stored record. |
| AppLocations.GettersComplete | app/crud.py:8-15 | From offset 0, with a limit covering the table, each getter returns every matching record. |
| AppLocations.Fetch | app/crud.py:70 | The re-fetch `id IN ids` returns stored rows whose ids are in the set. |
| AppLocations.FetchExactly | app/crud.py:70 | The re-fetch returns each existing row with a listed id exactly once, as stored. |
| AppLocations.BulkApplied | app/crud.py:55-63 | One batch item keeps the row's id, changes nothing when it carries no non-null field, and sets each column to the item's non-null value or leaves it as it was. |
| AppLocations.BulkUpdated | app/crud.py:52-65 | A batch update keeps the table's set of ids. |
| AppLocations.UpdatedIdList | app/crud.py:52-65 | The ids the batch collects are ids of rows in the table. |
| AppLocations.UpdatedIdsExactly | app/crud.py:52-65 | An id is reported exactly when some item names an existing row with it and carries at least one non-null field. |
| AppLocations.BulkLastWriteWins | app/crud.py:55-63 | Each column ends up with the last non-null value the batch gave it, or its old value; null is never written and the id never changes. |
| AppLocations.BulkUpdatedFrame | app/crud.py:52-65 | A row the batch does not report is left as it was. |
| AppLocations.BulkUpdatedWellFormed | app/crud.py:52-65 | A batch update keeps every row under its own id. |
| AppLocations.ItemsCleared | app/crud.py:81-82 | Batch clear sets the item id to `""` on each listed existing row and leaves every other row alone. |
| AppLocations.ItemsClearedExisting | app/crud.py:75-84 | Only the listed ids that name rows matter: two id sets that agree on the table's rows clear the same rows. |
| AppLocations.LocationStore.Create | app/crud.py:17-26 | Adds one record under the id SQLite assigns: larger than every id in use and one more than the largest, or 1 in an empty table; no other row changes. |
| AppLocations.LocationStore.Update | app/crud.py:28-36 | Missing id: returns nothing and the table is unchanged. Otherwise the row becomes `Patched(old row, patch)`, is returned, and no other row changes. |
| AppLocations.LocationStore.Delete | app/crud.py:38-43 | Removes exactly the record with that id and returns it, or returns nothing and changes nothing. |
| AppLocations.LocationStore.Clear | app/crud.py:45-46 | Sets an existing record's item id to `""` and returns it; a missing id returns nothing and changes nothing. |
| AppLocations.LocationStore.BatchUpdate | app/crud.py:48-72 | The table becomes `BulkUpdated`; the result holds each updated row once, as stored at the end, and nothing else; it is empty exactly when nothing was updated. |
| AppLocations.LocationStore.BatchClear | app/crud.py:74-90 | The table becomes `ItemsCleared` for the listed ids; the result holds each existing listed row once, cleared; it is empty exactly when no listed id exists. |

## Left out

- HTTP routing (`app/main.py`, `wms_service/main.py`): request parsing and the error mapping, such as 404 for a missing id and the empty-batch 400 and nothing-updated 404 of the older service, are outside the CRUD functions.
- Timestamps: the `timestamp` column is set by the store or by `datetime.utcnow` and is not modelled.
- Sessions: `commit`, `refresh` and `rollback` are one atomic change of the row map per call. Concurrent sessions, failed commits and partial commits are not modelled. This includes a newer-revision batch update whose earlier entries were committed before a later entry failed.
- Validation and coercion by pydantic (a non-integer id, a wrongly typed field, a `ValidationError` raised in the middle of a batch) are not modelled. Inputs are taken as already well typed.
- WmsLocations.LocationPatch: an explicit null `tray_number` is not modelled. The column is `NOT NULL`, so such an update fails at commit, and the store-side failure is out of scope.
- Negative `skip` and `limit` are not modelled (both are `nat`); what the engine does with them is engine-defined.
- AppLocations.NextRowId: SQLite's fallback when the largest id is already the maximum 64-bit integer (a random unused id) is not modelled, because ids are unbounded here.
- WmsLocations.LocationTable.Create: the newer revision's id generator lives in `database/database_config.py`, which is not part of this model. Ids are modelled as a counter that only grows.
- String comparison: every `WHERE` clause on a string column is exact equality of code-point sequences. Under a case- or accent-insensitive collation the engine would match more rows than the model. The older revision runs on SQLite (`app/database.py:5`), whose default comparison is exact; the newer revision's engine is not part of this model.
- Query order: the engine's row order is a parameter `scan`, not a fixed order. The results are stated for every order that visits each row once.
- Trays as entities, slot indices, slot initialisation, an overwrite or conflict guard, and a first-available search are not implemented by the modelled code, so they are not modelled. The model follows the code, which keys rows by the surrogate id alone.
- `common/i18n.py`, the desktop front ends (`gui/`, `wms_gui/`) and the Windows service wrapper (`app/service.py`) are not part of this model.
