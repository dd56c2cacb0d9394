/** The material-location table of the older revision (app/crud.py): records
    keyed by a surrogate id with an item id, a tray id and free process
    information, updated by partial patches and by batch operations. */
module AppLocations {
  import opened Common

  /** One row of `material_locations` (app/models.py:9-14). All three value
      columns are nullable; the timestamp is maintained by the store and is
      not modelled. */
  datatype Location = Location(
    id: int,
    itemId: Option<string>,
    trayId: Option<string>,
    processInfo: Option<string>)

  /** The body of a create request (app/schemas.py:5-11). */
  datatype LocationCreate = LocationCreate(itemId: string, trayId: string, processInfo: Option<string>)

  /** The fields an update request explicitly sets (app/schemas.py:13-16 read
      with `exclude_unset`); a field set to null is `Set(None)`. */
  datatype LocationPatch = LocationPatch(
    itemId: Field<Option<string>>,
    trayId: Field<Option<string>>,
    processInfo: Field<Option<string>>)

  /** One batch-update item (app/schemas.py:25-29): a null field means
      "leave this column alone". */
  datatype BulkItem = BulkItem(
    id: int,
    itemId: Option<string>,
    trayId: Option<string>,
    processInfo: Option<string>)

  /** The value columns, to state per-column facts once. */
  datatype Column = ItemIdColumn | TrayIdColumn | ProcessInfoColumn

  function Cell(loc: Location, c: Column): Option<string>
  {
    match c
    case ItemIdColumn => loc.itemId
    case TrayIdColumn => loc.trayId
    case ProcessInfoColumn => loc.processInfo
  }

  /** Every row is stored under its own id. */
  ghost predicate WellFormed(rows: map<int, Location>)
  {
    forall k :: k in rows ==> rows[k].id == k
  }

  function IdsOf(locs: seq<Location>): (r: seq<int>)
    ensures |r| == |locs| && forall i :: 0 <= i < |locs| ==> r[i] == locs[i].id
  {
    seq(|locs|, i requires 0 <= i < |locs| => locs[i].id)
  }

  // ---------------------------------------------------------------------------
  // Row ids

  /** The id SQLite gives a new row of a table whose integer primary key is
      its rowid: one more than the largest id present, or 1 in an empty table. */
  method NextRowId(keys: set<int>) returns (id: int)
    ensures id !in keys
    ensures keys == {} ==> id == 1
    ensures keys != {} ==> id - 1 in keys && forall k :: k in keys ==> k < id
  {
    id := 1;
    var found := false;
    var pending := keys;
    while pending != {}
      invariant pending <= keys
      invariant !found ==> id == 1 && pending == keys
      invariant found ==> id - 1 in keys
      invariant forall x :: x in keys && x !in pending ==> x < id
      decreases pending
    {
      ghost var _ := ElementOf(pending);
      var k :| k in pending;
      if !found || k >= id {
        id := k + 1;
      }
      found := true;
      pending := pending - {k};
    }
  }

  // ---------------------------------------------------------------------------
  // Single-record transitions

  /** The record `create_material_location` stores under the id `id`. */
  function NewLocation(id: int, c: LocationCreate): (r: Location)
    ensures r.id == id
    ensures r.itemId == Some(c.itemId) && r.trayId == Some(c.trayId) && r.processInfo == c.processInfo
  {
    Location(id, Some(c.itemId), Some(c.trayId), c.processInfo)
  }

  /** The record after the assignment loop of `update_material_location`. */
  function Patched(loc: Location, p: LocationPatch): (r: Location)
    ensures r.id == loc.id
    ensures r.itemId == if p.itemId.Set? then p.itemId.value else loc.itemId
    ensures r.trayId == if p.trayId.Set? then p.trayId.value else loc.trayId
    ensures r.processInfo == if p.processInfo.Set? then p.processInfo.value else loc.processInfo
  {
    Location(
      loc.id,
      if p.itemId.Set? then p.itemId.value else loc.itemId,
      if p.trayId.Set? then p.trayId.value else loc.trayId,
      if p.processInfo.Set? then p.processInfo.value else loc.processInfo)
  }

  /** The patch that `clear_material_location_item` sends: item id "" only. */
  function ClearPatch(): (p: LocationPatch)
    ensures p.itemId == Set(Some("")) && p.trayId.Unset? && p.processInfo.Unset?
  {
    LocationPatch(Set(Some("")), Unset, Unset)
  }

  /** The patch that applies `q` on top of `p`: a field `q` sets wins. */
  function Then(p: LocationPatch, q: LocationPatch): LocationPatch
  {
    LocationPatch(
      if q.itemId.Set? then q.itemId else p.itemId,
      if q.trayId.Set? then q.trayId else p.trayId,
      if q.processInfo.Set? then q.processInfo else p.processInfo)
  }

  /** Two updates in a row are one update with the merged patch, so a later
      update overwrites only the fields it sets; repeating an update changes
      nothing more; the empty patch changes nothing. */
  lemma PatchAlgebra(loc: Location, p: LocationPatch, q: LocationPatch)
    ensures Patched(Patched(loc, p), q) == Patched(loc, Then(p, q))
    ensures Patched(Patched(loc, p), p) == Patched(loc, p)
    ensures Patched(loc, LocationPatch(Unset, Unset, Unset)) == loc
  {
  }

  /** Clearing sets the item id to "" and keeps the tray and process
      information. */
  lemma ClearKeepsTray(loc: Location)
    ensures Patched(loc, ClearPatch()) == loc.(itemId := Some(""))
    ensures Patched(loc, ClearPatch()).trayId == loc.trayId
    ensures Patched(loc, ClearPatch()).processInfo == loc.processInfo
  {
  }

  // ---------------------------------------------------------------------------
  // Read-only queries

  /** The WHERE clause `item_id == item` (a NULL item id never matches). */
  function ItemIs(item: string): Location -> bool
  {
    (loc: Location) => loc.itemId == Some(item)
  }

  /** The WHERE clause `tray_id == tray` (a NULL tray id never matches). */
  function TrayIs(tray: string): Location -> bool
  {
    (loc: Location) => loc.trayId == Some(tray)
  }

  /** The WHERE clause `id IN ids`. */
  function IdIn(ids: set<int>): Location -> bool
  {
    (loc: Location) => loc.id in ids
  }

  /** No WHERE clause. */
  function AnyRow(): Location -> bool
  {
    (loc: Location) => true
  }

  /** `get_material_locations_by_item_id`. */
  function LocationsByItem(rows: map<int, Location>, scan: seq<int>, item: string, skip: nat, limit: nat): (r: seq<Location>)
    ensures |r| <= limit
    ensures |r| == WindowSize(|SelectIds(rows, scan, ItemIs(item))|, skip, limit)
    ensures forall x :: x in r ==> x in rows.Values && x.itemId == Some(item)
  {
    Query(rows, scan, ItemIs(item), skip, limit)
  }

  /** `get_material_locations_by_tray_id`. */
  function LocationsByTray(rows: map<int, Location>, scan: seq<int>, tray: string, skip: nat, limit: nat): (r: seq<Location>)
    ensures |r| <= limit
    ensures |r| == WindowSize(|SelectIds(rows, scan, TrayIs(tray))|, skip, limit)
    ensures forall x :: x in r ==> x in rows.Values && x.trayId == Some(tray)
  {
    Query(rows, scan, TrayIs(tray), skip, limit)
  }

  /** `get_all_material_locations`. */
  function AllLocations(rows: map<int, Location>, scan: seq<int>, skip: nat, limit: nat): (r: seq<Location>)
    ensures |r| <= limit
    ensures |r| == WindowSize(|SelectIds(rows, scan, AnyRow())|, skip, limit)
    ensures forall x :: x in r ==> x in rows.Values
  {
    Query(rows, scan, AnyRow(), skip, limit)
  }

  /** From offset 0 with a limit covering the table, the getters miss no row:
      every row holding the item, every row on the tray, every row at all. */
  lemma GettersComplete(rows: map<int, Location>, scan: seq<int>, item: string, tray: string, limit: nat, k: int)
    requires IsScanOf(rows, scan) && |scan| <= limit && k in rows
    ensures rows[k].itemId == Some(item) ==> rows[k] in LocationsByItem(rows, scan, item, 0, limit)
    ensures rows[k].trayId == Some(tray) ==> rows[k] in LocationsByTray(rows, scan, tray, 0, limit)
    ensures rows[k] in AllLocations(rows, scan, 0, limit)
  {
    if rows[k].itemId == Some(item) {
      QueryFindsEveryMatch(rows, scan, ItemIs(item), limit, k);
    }
    if rows[k].trayId == Some(tray) {
      QueryFindsEveryMatch(rows, scan, TrayIs(tray), limit, k);
    }
    QueryFindsEveryMatch(rows, scan, AnyRow(), limit, k);
  }

  /** `SELECT * WHERE id IN ids`, in the store's order. */
  function Fetch(rows: map<int, Location>, scan: seq<int>, ids: set<int>): (r: seq<Location>)
    ensures forall i :: 0 <= i < |r| ==> r[i] in rows.Values && r[i].id in ids
  {
    RowsOf(rows, SelectIds(rows, scan, IdIn(ids)))
  }

  /** On a well-formed table, fetching a set of ids returns each existing row
      with one of those ids exactly once, as it is stored. */
  lemma FetchExactly(rows: map<int, Location>, scan: seq<int>, ids: set<int>)
    requires WellFormed(rows) && IsScanOf(rows, scan)
    ensures NoDuplicates(IdsOf(Fetch(rows, scan, ids)))
    ensures forall k :: k in IdsOf(Fetch(rows, scan, ids)) <==> k in rows && k in ids
    ensures forall i :: 0 <= i < |Fetch(rows, scan, ids)| ==>
      Fetch(rows, scan, ids)[i].id in rows && Fetch(rows, scan, ids)[i] == rows[Fetch(rows, scan, ids)[i].id]
  {
    var sel := SelectIds(rows, scan, IdIn(ids));
    SelectIdsExactly(rows, scan, IdIn(ids));
    assert forall i :: 0 <= i < |sel| ==> Fetch(rows, scan, ids)[i].id == sel[i];
    assert IdsOf(Fetch(rows, scan, ids)) == sel;
  }

  // ---------------------------------------------------------------------------
  // Batch specifications

  /** A batch item changes a row when its id exists and it carries at least
      one non-null field. */
  predicate HasArgs(b: BulkItem)
  {
    b.itemId.Some? || b.trayId.Some? || b.processInfo.Some?
  }

  /** The non-null value a batch item carries for a column, if any. */
  function Written(b: BulkItem, c: Column): Option<string>
  {
    match c
    case ItemIdColumn => b.itemId
    case TrayIdColumn => b.trayId
    case ProcessInfoColumn => b.processInfo
  }

  /** The row after one batch item: its non-null fields, nothing else. */
  function BulkApplied(loc: Location, b: BulkItem): (r: Location)
    ensures r.id == loc.id
    ensures !HasArgs(b) ==> r == loc
    ensures forall c :: Cell(r, c) == if Written(b, c).Some? then Written(b, c) else Cell(loc, c)
  {
    Location(
      loc.id,
      if b.itemId.Some? then b.itemId else loc.itemId,
      if b.trayId.Some? then b.trayId else loc.trayId,
      if b.processInfo.Some? then b.processInfo else loc.processInfo)
  }

  /** The table after the batch items, applied one after another in one session. */
  function BulkUpdated(rows: map<int, Location>, items: seq<BulkItem>): (r: map<int, Location>)
    ensures r.Keys == rows.Keys
  {
    if items == [] then rows
    else
      var before := BulkUpdated(rows, items[..|items| - 1]);
      var b := items[|items| - 1];
      if b.id in before && HasArgs(b) then before[b.id := BulkApplied(before[b.id], b)] else before
  }

  /** The list of updated ids the batch accumulates, in input order. */
  function UpdatedIdList(rows: map<int, Location>, items: seq<BulkItem>): (r: seq<int>)
    ensures forall i :: 0 <= i < |r| ==> r[i] in rows
  {
    if items == [] then []
    else
      var b := items[|items| - 1];
      UpdatedIdList(rows, items[..|items| - 1]) + if b.id in rows && HasArgs(b) then [b.id] else []
  }

  /** The ids the batch reports as updated. */
  function UpdatedIds(rows: map<int, Location>, items: seq<BulkItem>): set<int>
  {
    set k | k in UpdatedIdList(rows, items)
  }

  /** An id is updated exactly when some item names an existing row with it
      and carries a non-null field. */
  lemma {:induction false} UpdatedIdsExactly(rows: map<int, Location>, items: seq<BulkItem>, k: int)
    ensures k in UpdatedIds(rows, items)
        <==> k in rows && exists i :: 0 <= i < |items| && items[i].id == k && HasArgs(items[i])
  {
    if items != [] {
      var n := |items| - 1;
      UpdatedIdsExactly(rows, items[..n], k);
      assert k in UpdatedIds(rows, items[..n]) ==> k in UpdatedIds(rows, items);
      if k in UpdatedIds(rows, items) && k !in UpdatedIds(rows, items[..n]) {
        assert items[n].id == k && HasArgs(items[n]);
      }
      if k in rows && exists i :: 0 <= i < |items| && items[i].id == k && HasArgs(items[i]) {
        var i :| 0 <= i < |items| && items[i].id == k && HasArgs(items[i]);
        if i < n {
          assert items[..n][i] == items[i];
        }
      }
    }
  }

  /** The last non-null value the batch carries for column `c` of row `k`. */
  function LastWritten(items: seq<BulkItem>, k: int, c: Column): Option<string>
  {
    if items == [] then None
    else
      var b := items[|items| - 1];
      if b.id == k && Written(b, c).Some? then Written(b, c) else LastWritten(items[..|items| - 1], k, c)
  }

  /** Each column of each row ends up holding the last non-null value the
      batch gave it, or its old value when the batch gave none: null is never
      written, the id never changes, and later items win over earlier ones. */
  lemma {:induction false} BulkLastWriteWins(rows: map<int, Location>, items: seq<BulkItem>, k: int, c: Column)
    requires k in rows
    ensures k in BulkUpdated(rows, items)
    ensures BulkUpdated(rows, items)[k].id == rows[k].id
    ensures Cell(BulkUpdated(rows, items)[k], c)
         == if LastWritten(items, k, c).Some? then LastWritten(items, k, c) else Cell(rows[k], c)
  {
    if items != [] {
      var n := |items| - 1;
      BulkLastWriteWins(rows, items[..n], k, c);
    }
  }

  /** A batch update leaves rows it does not report untouched. */
  lemma {:induction false} BulkUpdatedFrame(rows: map<int, Location>, items: seq<BulkItem>, k: int)
    requires k in rows && k !in UpdatedIds(rows, items)
    ensures BulkUpdated(rows, items)[k] == rows[k]
  {
    if items != [] {
      var n := |items| - 1;
      assert UpdatedIds(rows, items[..n]) <= UpdatedIds(rows, items);
      BulkUpdatedFrame(rows, items[..n], k);
    }
  }

  /** A batch update keeps every row under its own id. */
  lemma {:induction false} BulkUpdatedWellFormed(rows: map<int, Location>, items: seq<BulkItem>)
    requires WellFormed(rows)
    ensures WellFormed(BulkUpdated(rows, items))
  {
    if items != [] {
      BulkUpdatedWellFormed(rows, items[..|items| - 1]);
    }
  }

  /** The table after setting the item id to "" on every listed existing row. */
  function ItemsCleared(rows: map<int, Location>, ids: set<int>): (r: map<int, Location>)
    ensures r.Keys == rows.Keys
    ensures forall k :: k in rows ==> r[k] == if k in ids then rows[k].(itemId := Some("")) else rows[k]
  {
    map k | k in rows :: if k in ids then rows[k].(itemId := Some("")) else rows[k]
  }

  /** Clearing one more existing row is one more single-row clear. */
  lemma ItemsClearedStep(rows: map<int, Location>, ids: set<int>, k: int)
    requires k in rows
    ensures ItemsCleared(rows, ids + {k}) == ItemsCleared(rows, ids)[k := rows[k].(itemId := Some(""))]
  {
  }

  /** Only the listed ids that name rows matter to a batch clear. */
  lemma ItemsClearedExisting(rows: map<int, Location>, ids: set<int>, ids': set<int>)
    requires forall k :: k in rows ==> (k in ids <==> k in ids')
    ensures ItemsCleared(rows, ids) == ItemsCleared(rows, ids')
  {
    assert forall k :: k in rows ==> ItemsCleared(rows, ids)[k] == ItemsCleared(rows, ids')[k];
  }

  // ---------------------------------------------------------------------------
  // The table

  /** The `material_locations` table as the CRUD functions see it: one atomic
      change of the row map per call. */
  class LocationStore {
    var rows: map<int, Location>

    ghost predicate Valid()
      reads this
    {
      WellFormed(rows)
    }

    constructor ()
      ensures Valid() && rows == map[]
    {
      rows := map[];
    }

    /** `create_material_location` */
    method Create(c: LocationCreate) returns (loc: Location)
      requires Valid()
      modifies this
      ensures Valid()
      ensures loc.id !in old(rows) && forall k :: k in old(rows) ==> k < loc.id
      ensures old(rows) == map[] ==> loc.id == 1
      ensures old(rows) != map[] ==> loc.id - 1 in old(rows)
      ensures loc == NewLocation(loc.id, c)
      ensures rows == old(rows)[loc.id := loc]
    {
      var id := NextRowId(rows.Keys);
      loc := Location(id, Some(c.itemId), Some(c.trayId), c.processInfo);
      rows := rows[id := loc];
    }

    /** `update_material_location`: None and no change for a missing id. */
    method Update(id: int, p: LocationPatch) returns (r: Option<Location>)
      requires Valid()
      modifies this
      ensures Valid()
      ensures id !in old(rows) ==> r == None && rows == old(rows)
      ensures id in old(rows) ==> r == Some(Patched(old(rows)[id], p)) && rows == old(rows)[id := r.value]
    {
      r := Get(rows, id);
      if r.Some? {
        var loc := r.value;
        // the assignment loop over the fields the request set
        if p.itemId.Set? { loc := loc.(itemId := p.itemId.value); }
        if p.trayId.Set? { loc := loc.(trayId := p.trayId.value); }
        if p.processInfo.Set? { loc := loc.(processInfo := p.processInfo.value); }
        rows := rows[id := loc];
        r := Some(loc);
      }
    }

    /** `delete_material_location`: removes exactly the row with that id and returns it. */
    method Delete(id: int) returns (r: Option<Location>)
      requires Valid()
      modifies this
      ensures Valid()
      ensures id !in old(rows) ==> r == None && rows == old(rows)
      ensures id in old(rows) ==> r == Some(old(rows)[id]) && rows == old(rows) - {id}
    {
      r := Get(rows, id);
      if r.Some? {
        rows := rows - {id};
      }
    }

    /** `clear_material_location_item`: the update that sets the item id to "". */
    method Clear(id: int) returns (r: Option<Location>)
      requires Valid()
      modifies this
      ensures Valid()
      ensures id !in old(rows) ==> r == None && rows == old(rows)
      ensures id in old(rows) ==>
        r == Some(old(rows)[id].(itemId := Some(""))) && rows == old(rows)[id := r.value]
    {
      r := Update(id, ClearPatch());
    }

    /** `batch_update_material_locations`: items naming a missing row or
        carrying no non-null field are skipped; the updated rows are fetched
        back once, in the store's order, each once. */
    method BatchUpdate(items: seq<BulkItem>, scan: seq<int>) returns (r: seq<Location>)
      requires Valid() && IsScanOf(rows, scan)
      modifies this
      ensures Valid()
      ensures rows == BulkUpdated(old(rows), items)
      ensures r == Fetch(rows, scan, UpdatedIds(old(rows), items))
      ensures NoDuplicates(IdsOf(r))
      ensures forall k :: k in IdsOf(r) <==> k in UpdatedIds(old(rows), items)
      ensures forall i :: 0 <= i < |r| ==> r[i].id in rows && r[i] == rows[r[i].id]
      ensures r == [] <==> UpdatedIds(old(rows), items) == {}
    {
      ghost var rows0 := rows;
      var updated: seq<int> := [];
      for i := 0 to |items|
        invariant rows == BulkUpdated(rows0, items[..i])
        invariant updated == UpdatedIdList(rows0, items[..i])
      {
        assert items[..i + 1][..i] == items[..i];
        var b := items[i];
        if b.id in rows {
          if HasArgs(b) {
            var loc := rows[b.id];
            if b.itemId.Some? { loc := loc.(itemId := b.itemId); }
            if b.trayId.Some? { loc := loc.(trayId := b.trayId); }
            if b.processInfo.Some? { loc := loc.(processInfo := b.processInfo); }
            rows := rows[b.id := loc];
            updated := updated + [b.id];
          }
        }
      }
      assert items[..|items|] == items;
      BulkUpdatedWellFormed(rows0, items);
      var ids := set k | k in updated;
      if updated == [] {
        r := [];
        SelectIdsNone(rows, scan, IdIn(ids));
      } else {
        r := Fetch(rows, scan, ids);
      }
      FetchExactly(rows, scan, ids);
      if r != [] {
        assert r[0].id in IdsOf(r);
      }
    }

    /** `batch_clear_material_locations_by_ids`: sets the item id to "" on
        every listed row that exists and fetches those rows back once each;
        unknown ids are ignored. */
    method BatchClear(ids: seq<int>, scan: seq<int>) returns (r: seq<Location>)
      requires Valid() && IsScanOf(rows, scan)
      modifies this
      ensures Valid()
      ensures rows == ItemsCleared(old(rows), set k | k in ids)
      ensures NoDuplicates(IdsOf(r))
      ensures forall k :: k in IdsOf(r) <==> k in old(rows) && k in ids
      ensures forall i :: 0 <= i < |r| ==> r[i].id in rows && r[i] == rows[r[i].id]
      ensures r == [] <==> forall k :: k in ids ==> k !in old(rows)
    {
      ghost var rows0 := rows;
      var listed := set k | k in ids;
      var toClear := SelectIds(rows, scan, IdIn(listed));
      SelectIdsExactly(rows, scan, IdIn(listed));
      if toClear == [] {
        assert forall k :: k in rows ==> k !in listed;
        assert ItemsCleared(rows, listed) == rows;
        return [];
      }
      var cleared: seq<int> := [];
      ghost var done: set<int> := {};
      for i := 0 to |toClear|
        invariant cleared == toClear[..i]
        invariant forall x :: x in done <==> x in cleared
        invariant rows == ItemsCleared(rows0, done)
      {
        var k := toClear[i];
        ItemsClearedStep(rows0, done, k);
        rows := rows[k := rows[k].(itemId := Some(""))];
        cleared := cleared + [k];
        done := done + {k};
        assert toClear[..i + 1] == toClear[..i] + [k];
      }
      assert toClear[..|toClear|] == toClear;
      ItemsClearedExisting(rows0, done, listed);
      var clearedSet := set k | k in cleared;
      r := Fetch(rows, scan, clearedSet);
      FetchExactly(rows, scan, clearedSet);
      assert toClear[0] in cleared && toClear[0] in rows;
    }
  }
}
