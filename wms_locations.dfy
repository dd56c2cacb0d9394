/** The material-location table of the newer revision (wms_service/crud.py):
    records keyed by a surrogate id, each create and update passing through
    the status classification of module WmsStatus. */
module WmsLocations {
  import opened Common
  import opened WmsStatus

  /** One row of `material_locations` (database/models.py:10-16). The
      timestamp column is maintained by the store and is not modelled. */
  datatype Location = Location(
    id: int,
    materialId: Option<string>,
    trayNumber: string,
    processId: Option<string>,
    taskId: Option<string>,
    status: string)

  /** The body of a create request (wms_service/schemas.py:5-13). */
  datatype LocationCreate = LocationCreate(
    materialId: Option<string>,
    trayNumber: string,
    processId: Option<string>,
    taskId: Option<string>,
    status: string)

  /** The fields an update request explicitly sets (wms_service/schemas.py:15-20
      read with `exclude_unset`); a field set to null is `Set(None)`. */
  datatype LocationPatch = LocationPatch(
    materialId: Field<Option<string>>,
    trayNumber: Field<string>,
    processId: Field<Option<string>>,
    taskId: Field<Option<string>>,
    status: Field<Option<string>>)

  /** The `data` entry of one batch-update item: missing (or null), present
      but not a dictionary, or a dictionary of update fields. */
  datatype BatchData = NoData | NotADict | Data(patch: LocationPatch)

  /** One batch-update item; its `id` may be missing. */
  datatype BatchEntry = BatchEntry(id: Option<int>, data: BatchData)

  /** Every row is stored under its own id and carries a normalised material id. */
  ghost predicate WellFormed(rows: map<int, Location>)
  {
    forall k :: k in rows ==> rows[k].id == k && IsNormalMaterial(rows[k].materialId)
  }

  // ---------------------------------------------------------------------------
  // Single-record transitions

  /** The record `create_location` stores under the fresh id `id`. */
  function NewLocation(id: int, c: LocationCreate): (r: Location)
    ensures r.id == id && r.trayNumber == c.trayNumber
    ensures r.processId == c.processId && r.taskId == c.taskId
    ensures IsNormalMaterial(r.materialId)
    ensures r.status == Empty <==> r.materialId.None?
    ensures r.status == Classify(c.materialId).status
  {
    var k := Classify(c.materialId);
    Location(id, k.materialId, c.trayNumber, c.processId, c.taskId, k.status)
  }

  /** After create the status depends on the material id alone, whatever status
      the request carried: disabled for a marker, active for a material id with
      a non-space character, empty (and no material id) otherwise. */
  lemma CreateStatus(id: int, c: LocationCreate)
    ensures NewLocation(id, c).status == Disabled <==> c.materialId.Some? && IsDisabledMarker(c.materialId.value)
    ensures NewLocation(id, c).status == Active
        <==> c.materialId.Some? && !IsDisabledMarker(c.materialId.value)
             && exists i :: 0 <= i < |c.materialId.value| && !IsSpace(c.materialId.value[i])
    ensures NewLocation(id, c).status == Empty
        <==> c.materialId.None? || forall i :: 0 <= i < |c.materialId.value| ==> IsSpace(c.materialId.value[i])
    ensures NewLocation(id, c).status == Empty ==> NewLocation(id, c).materialId == None
    ensures NewLocation(id, c).status != Empty ==> NewLocation(id, c).materialId == c.materialId
  {
    ClassifyCases(c.materialId);
  }

  /** The record after the field-by-field assignment of an update patch. A
      null status is not written here: classification overwrites the status
      of every updated row afterwards, so that assignment never shows. */
  function Patched(loc: Location, p: LocationPatch): (r: Location)
    ensures r.id == loc.id
    ensures p.materialId.Unset? ==> r.materialId == loc.materialId
    ensures p.trayNumber.Unset? ==> r.trayNumber == loc.trayNumber
    ensures p.processId.Unset? ==> r.processId == loc.processId
    ensures p.taskId.Unset? ==> r.taskId == loc.taskId
    ensures p.status.Unset? ==> r.status == loc.status
  {
    Location(
      loc.id,
      if p.materialId.Set? then p.materialId.value else loc.materialId,
      if p.trayNumber.Set? then p.trayNumber.value else loc.trayNumber,
      if p.processId.Set? then p.processId.value else loc.processId,
      if p.taskId.Set? then p.taskId.value else loc.taskId,
      if p.status.Set? && p.status.value.Some? then p.status.value.value else loc.status)
  }

  /** An explicit status is honoured only when the patch names a status and
      does not touch the material id. */
  predicate KeepsExplicitStatus(p: LocationPatch)
    ensures KeepsExplicitStatus(p) ==> p.status.Set? && p.status.value.Some?
    ensures p.materialId.Set? || p.status.Unset? ==> !KeepsExplicitStatus(p)
  {
    p.materialId.Unset? && p.status.Set? && p.status.value.Some?
  }

  /** The record `update_location` leaves behind for an existing row. */
  function Updated(loc: Location, p: LocationPatch): (r: Location)
    ensures r.id == loc.id
    ensures IsNormalMaterial(r.materialId)
  {
    var q := Patched(loc, p);
    var k := Classify(q.materialId);
    q.(materialId := k.materialId,
       status := if KeepsExplicitStatus(p) then p.status.value.value else k.status)
  }

  /** A normalised material id survives classification unchanged. */
  lemma ClassifyKeepsNormal(m: Option<string>)
    requires IsNormalMaterial(m)
    ensures Classify(m).materialId == m
  {
  }

  /** On a well-formed row, update overwrites exactly the fields the patch
      sets: tray, process and task take the patch's values, the material id
      takes the patch's value after normalisation, and every field the patch
      leaves out keeps its old value. */
  lemma {:induction false} UpdateFieldwise(loc: Location, p: LocationPatch)
    requires IsNormalMaterial(loc.materialId)
    ensures Updated(loc, p).trayNumber == if p.trayNumber.Set? then p.trayNumber.value else loc.trayNumber
    ensures Updated(loc, p).processId == if p.processId.Set? then p.processId.value else loc.processId
    ensures Updated(loc, p).taskId == if p.taskId.Set? then p.taskId.value else loc.taskId
    ensures Updated(loc, p).materialId
         == if p.materialId.Set? then Classify(p.materialId.value).materialId else loc.materialId
  {
    if p.materialId.Unset? {
      ClassifyKeepsNormal(loc.materialId);
    }
  }

  /** Assignment alone: the empty patch changes nothing, and a patch
      assigned twice gives what it gives once. */
  lemma PatchedAlgebra(loc: Location, p: LocationPatch)
    ensures Patched(loc, LocationPatch(Unset, Unset, Unset, Unset, Unset)) == loc
    ensures Patched(Patched(loc, p), p) == Patched(loc, p)
  {
  }

  /** The status after an update: the explicit one when the patch gives a
      status and leaves the material id alone; otherwise the status the stored
      material id classifies to, so an earlier explicit status is lost. */
  lemma UpdateStatus(loc: Location, p: LocationPatch)
    ensures KeepsExplicitStatus(p) ==> Updated(loc, p).status == p.status.value.value
    ensures !KeepsExplicitStatus(p) ==> Updated(loc, p).status == Classify(Updated(loc, p).materialId).status
    ensures !KeepsExplicitStatus(p) ==> (Updated(loc, p).status == Empty <==> Updated(loc, p).materialId.None?)
  {
    ClassifyIdempotent(Patched(loc, p).materialId);
  }

  /** Sending the same patch twice leaves the record as the first time did. */
  lemma UpdateIdempotent(loc: Location, p: LocationPatch)
    ensures Updated(Updated(loc, p), p) == Updated(loc, p)
  {
    ClassifyIdempotent(Patched(loc, p).materialId);
  }

  /** The record `clear_location_by_id` leaves behind. */
  function Cleared(loc: Location): (r: Location)
    ensures r.id == loc.id && r.trayNumber == loc.trayNumber
    ensures r.materialId == None && r.processId == None && r.taskId == None
    ensures r.status == Empty
  {
    loc.(materialId := None, processId := None, taskId := None, status := Empty)
  }

  /** Clearing is the update that nulls the material, process and task ids,
      and clearing twice is clearing once. */
  lemma ClearIsUpdate(loc: Location)
    ensures Cleared(loc) == Updated(loc, LocationPatch(Set(None), Unset, Set(None), Set(None), Unset))
    ensures Cleared(Cleared(loc)) == Cleared(loc)
  {
    assert IsBlank("") by { assert Strip("") == []; }
  }

  // ---------------------------------------------------------------------------
  // Read-only queries

  /** The conjunctive filter of `query_locations`: every given criterion holds;
      the tray and material criteria are the getters' WHERE clauses. */
  predicate MatchesFilter(loc: Location, tray: Option<string>, material: Option<string>, status: Option<string>)
    ensures tray.None? && material.None? && status.None? ==> MatchesFilter(loc, tray, material, status)
    ensures MatchesFilter(loc, tray, material, status)
        <==> (tray.None? || OnTray(tray.value)(loc))
             && (material.None? || HoldsMaterial(material.value)(loc))
             && (status.None? || loc.status == status.value)
  {
    && (tray.None? || loc.trayNumber == tray.value)
    && (material.None? || loc.materialId == material)
    && (status.None? || loc.status == status.value)
  }

  /** The WHERE clause `tray_number == tray`. */
  function OnTray(tray: string): Location -> bool
  {
    (loc: Location) => loc.trayNumber == tray
  }

  /** The WHERE clause `material_id == material` (a NULL material id never matches). */
  function HoldsMaterial(material: string): Location -> bool
  {
    (loc: Location) => loc.materialId == Some(material)
  }

  /** The WHERE clause `query_locations` builds from its criteria. */
  function Matches(tray: Option<string>, material: Option<string>, status: Option<string>): Location -> bool
  {
    (loc: Location) => MatchesFilter(loc, tray, material, status)
  }

  /** `query_locations`: the rows matching every given criterion, offset and
      limited: the whole window of the matching ids in scan order. */
  function QueryLocations(rows: map<int, Location>, scan: seq<int>, tray: Option<string>,
                          material: Option<string>, status: Option<string>, skip: nat, limit: nat): (r: seq<Location>)
    ensures |r| <= limit
    ensures |r| == WindowSize(|SelectIds(rows, scan, Matches(tray, material, status))|, skip, limit)
    ensures forall i :: 0 <= i < |r| ==>
      var ids := SelectIds(rows, scan, Matches(tray, material, status));
      skip + i < |ids| && r[i] == rows[ids[skip + i]]
    ensures forall x :: x in r ==> x in rows.Values && MatchesFilter(x, tray, material, status)
  {
    Query(rows, scan, Matches(tray, material, status), skip, limit)
  }

  /** `get_locations_by_tray`. */
  function LocationsByTray(rows: map<int, Location>, scan: seq<int>, tray: string, skip: nat, limit: nat): (r: seq<Location>)
    ensures |r| <= limit
    ensures |r| == WindowSize(|SelectIds(rows, scan, OnTray(tray))|, skip, limit)
    ensures forall x :: x in r ==> x in rows.Values && x.trayNumber == tray
  {
    Query(rows, scan, OnTray(tray), skip, limit)
  }

  /** `get_locations_by_material_id`. */
  function LocationsByMaterial(rows: map<int, Location>, scan: seq<int>, material: string, skip: nat, limit: nat): (r: seq<Location>)
    ensures |r| <= limit
    ensures |r| == WindowSize(|SelectIds(rows, scan, HoldsMaterial(material))|, skip, limit)
    ensures forall x :: x in r ==> x in rows.Values && x.materialId == Some(material)
  {
    Query(rows, scan, HoldsMaterial(material), skip, limit)
  }

  /** The two single-criterion getters are `query_locations` with one filter. */
  lemma GettersAreQueries(rows: map<int, Location>, scan: seq<int>, tray: string, material: string, skip: nat, limit: nat)
    ensures LocationsByTray(rows, scan, tray, skip, limit) == QueryLocations(rows, scan, Some(tray), None, None, skip, limit)
    ensures LocationsByMaterial(rows, scan, material, skip, limit) == QueryLocations(rows, scan, None, Some(material), None, skip, limit)
  {
    SelectIdsAgree(rows, rows, scan, OnTray(tray), Matches(Some(tray), None, None));
    SelectIdsAgree(rows, rows, scan, HoldsMaterial(material), Matches(None, Some(material), None));
  }

  /** `query_locations` drops no match: from offset 0 with a limit covering the
      table, every row matching all criteria is returned. */
  lemma QueryLocationsComplete(rows: map<int, Location>, scan: seq<int>, tray: Option<string>,
                               material: Option<string>, status: Option<string>, limit: nat, k: int)
    requires IsScanOf(rows, scan) && |scan| <= limit
    requires k in rows && MatchesFilter(rows[k], tray, material, status)
    ensures rows[k] in QueryLocations(rows, scan, tray, material, status, 0, limit)
  {
    QueryFindsEveryMatch(rows, scan, Matches(tray, material, status), limit, k);
  }

  // ---------------------------------------------------------------------------
  // Batch specifications

  /** A batch item is applied when it has an id and a dictionary of data, and
      the id names an existing row. */
  predicate Applies(rows: map<int, Location>, e: BatchEntry)
  {
    e.id.Some? && e.data.Data? && e.id.value in rows
  }

  /** The table after the batch items, applied one after another. */
  function BatchUpdated(rows: map<int, Location>, entries: seq<BatchEntry>): (r: map<int, Location>)
    ensures r.Keys == rows.Keys
  {
    if entries == [] then rows
    else
      var before := BatchUpdated(rows, entries[..|entries| - 1]);
      var e := entries[|entries| - 1];
      if Applies(before, e) then before[e.id.value := Updated(before[e.id.value], e.data.patch)] else before
  }

  /** The ids of the applied items, in input order (one per applied item). */
  function AppliedIds(rows: map<int, Location>, entries: seq<BatchEntry>): (r: seq<int>)
    ensures |r| <= |entries|
    ensures forall i :: 0 <= i < |r| ==> r[i] in rows
  {
    if entries == [] then []
    else
      var e := entries[|entries| - 1];
      AppliedIds(rows, entries[..|entries| - 1]) + if Applies(rows, e) then [e.id.value] else []
  }

  /** An id is reported by a batch update exactly when some item of the batch
      applies to it. */
  lemma {:induction false} AppliedIdsExactly(rows: map<int, Location>, entries: seq<BatchEntry>, k: int)
    ensures k in AppliedIds(rows, entries)
        <==> exists i :: 0 <= i < |entries| && Applies(rows, entries[i]) && entries[i].id.value == k
  {
    if entries != [] {
      var n := |entries| - 1;
      AppliedIdsExactly(rows, entries[..n], k);
      if k in AppliedIds(rows, entries) && k !in AppliedIds(rows, entries[..n]) {
        assert Applies(rows, entries[n]) && entries[n].id.value == k;
      }
      if exists i :: 0 <= i < |entries| && Applies(rows, entries[i]) && entries[i].id.value == k {
        var i :| 0 <= i < |entries| && Applies(rows, entries[i]) && entries[i].id.value == k;
        if i < n {
          assert entries[..n][i] == entries[i];
        }
      }
    }
  }

  /** A batch update touches only the rows its applied items name, and keeps
      every row well formed. */
  lemma {:induction false} BatchUpdatedFrame(rows: map<int, Location>, entries: seq<BatchEntry>, k: int)
    requires WellFormed(rows)
    requires k in rows && k !in AppliedIds(rows, entries)
    ensures WellFormed(BatchUpdated(rows, entries))
    ensures BatchUpdated(rows, entries)[k] == rows[k]
  {
    if entries != [] {
      var n := |entries| - 1;
      assert AppliedIds(rows, entries[..n]) <= AppliedIds(rows, entries);
      BatchUpdatedFrame(rows, entries[..n], k);
    }
  }

  /** Every well-formed table stays well formed through a batch update. */
  lemma {:induction false} BatchUpdatedWellFormed(rows: map<int, Location>, entries: seq<BatchEntry>)
    requires WellFormed(rows)
    ensures WellFormed(BatchUpdated(rows, entries))
  {
    if entries != [] {
      BatchUpdatedWellFormed(rows, entries[..|entries| - 1]);
    }
  }

  /** The table after clearing every existing row whose id is listed. */
  function ClearedIds(rows: map<int, Location>, ids: seq<int>): (r: map<int, Location>)
    ensures r.Keys == rows.Keys
    ensures forall k :: k in rows ==> r[k] == if k in ids then Cleared(rows[k]) else rows[k]
  {
    map k | k in rows :: if k in ids then Cleared(rows[k]) else rows[k]
  }

  /** Clearing one more listed id is one more single-row clear, or no change
      when no row has that id. */
  lemma ClearedIdsStep(rows: map<int, Location>, ids: seq<int>, i: nat)
    requires i < |ids|
    ensures var before := ClearedIds(rows, ids[..i]);
      ids[i] in rows ==> ClearedIds(rows, ids[..i + 1]) == before[ids[i] := Cleared(before[ids[i]])]
    ensures ids[i] !in rows ==> ClearedIds(rows, ids[..i + 1]) == ClearedIds(rows, ids[..i])
  {
    assert forall x :: x in ids[..i + 1] <==> x in ids[..i] || x == ids[i];
  }

  /** Clearing a row of a partly cleared table gives the same record as
      clearing the original row. */
  lemma ClearAfterClearedIds(rows: map<int, Location>, ids: seq<int>, k: int)
    requires k in rows
    ensures k in ClearedIds(rows, ids)
    ensures Cleared(ClearedIds(rows, ids)[k]) == Cleared(rows[k])
  {
    ClearIsUpdate(rows[k]);
  }

  /** The listed ids that name existing rows, in input order, repeats kept. */
  function ExistingIds(rows: map<int, Location>, ids: seq<int>): (r: seq<int>)
    ensures |r| <= |ids|
    ensures forall i :: 0 <= i < |r| ==> r[i] in rows
  {
    if ids == [] then []
    else
      var n := |ids| - 1;
      ExistingIds(rows, ids[..n]) + if ids[n] in rows then [ids[n]] else []
  }

  /** An id is among the existing listed ids exactly when it is listed and
      names a row. */
  lemma {:induction false} ExistingIdsExactly(rows: map<int, Location>, ids: seq<int>, k: int)
    ensures k in ExistingIds(rows, ids) <==> k in ids && k in rows
  {
    if ids != [] {
      var n := |ids| - 1;
      ExistingIdsExactly(rows, ids[..n], k);
      assert ids == ids[..n] + [ids[n]];
    }
  }

  /** When every listed id names a row, all of them are kept. */
  lemma {:induction false} ExistingIdsAll(rows: map<int, Location>, ids: seq<int>)
    requires forall i :: 0 <= i < |ids| ==> ids[i] in rows
    ensures ExistingIds(rows, ids) == ids
  {
    if ids != [] {
      var n := |ids| - 1;
      ExistingIdsAll(rows, ids[..n]);
      assert ids == ids[..n] + [ids[n]];
    }
  }

  /** The records a batch clear by ids returns: each listed existing row,
      cleared, in input order. */
  function ClearedRecords(rows: map<int, Location>, ids: seq<int>): (r: seq<Location>)
    ensures |r| == |ExistingIds(rows, ids)|
    ensures forall j :: 0 <= j < |r| ==> r[j] == Cleared(rows[ExistingIds(rows, ids)[j]])
  {
    if ids == [] then []
    else
      var n := |ids| - 1;
      ClearedRecords(rows, ids[..n]) + if ids[n] in rows then [Cleared(rows[ids[n]])] else []
  }

  /** Clearing one more existing listed id returns one more cleared record. */
  lemma ClearedRecordsStep(rows: map<int, Location>, ids: seq<int>, i: nat)
    requires i < |ids| && ids[i] in rows
    ensures ClearedRecords(rows, ids[..i + 1]) == ClearedRecords(rows, ids[..i]) + [Cleared(rows[ids[i]])]
  {
    assert ids[..i + 1][..i] == ids[..i];
  }

  /** The table after clearing every row on the tray. */
  function ClearedTray(rows: map<int, Location>, tray: string): (r: map<int, Location>)
    ensures r.Keys == rows.Keys
    ensures forall k :: k in rows ==> r[k] == if rows[k].trayNumber == tray then Cleared(rows[k]) else rows[k]
  {
    map k | k in rows :: if rows[k].trayNumber == tray then Cleared(rows[k]) else rows[k]
  }

  /** Clearing the ids the tray query selects clears exactly the tray. */
  lemma ClearedTrayByIds(rows: map<int, Location>, scan: seq<int>, tray: string)
    requires IsScanOf(rows, scan)
    ensures ClearedIds(rows, SelectIds(rows, scan, OnTray(tray))) == ClearedTray(rows, tray)
  {
    var ids := SelectIds(rows, scan, OnTray(tray));
    SelectIdsExactly(rows, scan, OnTray(tray));
    assert forall k :: k in rows ==> (k in ids <==> rows[k].trayNumber == tray);
  }

  /** The records a tray clear returns are the rows of the tray, each once,
      in the order the tray query lists them, each as the cleared table holds it. */
  lemma ClearedTrayRecords(rows: map<int, Location>, scan: seq<int>, tray: string)
    requires WellFormed(rows) && IsScanOf(rows, scan)
    ensures var ids := SelectIds(rows, scan, OnTray(tray));
      var r := ClearedRecords(rows, ids);
      && IdsOf(r) == ids
      && NoDuplicates(IdsOf(r))
      && (forall k :: k in IdsOf(r) <==> k in rows && rows[k].trayNumber == tray)
      && (forall i :: 0 <= i < |r| ==> r[i].id in rows && r[i] == ClearedTray(rows, tray)[r[i].id])
  {
    var ids := SelectIds(rows, scan, OnTray(tray));
    var r := ClearedRecords(rows, ids);
    ExistingIdsAll(rows, ids);
    SelectIdsExactly(rows, scan, OnTray(tray));
    assert forall j :: 0 <= j < |r| ==> r[j].id == ids[j];
    assert IdsOf(r) == ids;
  }

  function IdsOf(locs: seq<Location>): (r: seq<int>)
    ensures |r| == |locs| && forall i :: 0 <= i < |locs| ==> r[i] == locs[i].id
  {
    seq(|locs|, i requires 0 <= i < |locs| => locs[i].id)
  }

  // ---------------------------------------------------------------------------
  // The table

  /** The `material_locations` table as the CRUD functions see it: one atomic
      change of the row map per call. New ids come from the store's sequence,
      modelled as a counter that only grows. */
  class LocationTable {
    var rows: map<int, Location>
    var nextId: int

    ghost predicate Valid()
      reads this
    {
      && nextId >= 1
      && WellFormed(rows)
      && (forall k :: k in rows ==> 1 <= k < nextId)
    }

    constructor ()
      ensures Valid() && rows == map[]
    {
      rows := map[];
      nextId := 1;
    }

    /** `create_location` */
    method Create(c: LocationCreate) returns (loc: Location)
      requires Valid()
      modifies this
      ensures Valid()
      ensures loc.id !in old(rows) && nextId > loc.id
      ensures loc == NewLocation(old(nextId), c)
      ensures rows == old(rows)[loc.id := loc]
    {
      loc := Location(nextId, c.materialId, c.trayNumber, c.processId, c.taskId, c.status);
      var k := Classify(loc.materialId);
      loc := loc.(materialId := k.materialId, status := k.status);
      rows := rows[nextId := loc];
      nextId := nextId + 1;
    }

    /** `update_location`: None and no change for a missing id. */
    method Update(id: int, p: LocationPatch) returns (r: Option<Location>)
      requires Valid()
      modifies this
      ensures Valid() && nextId == old(nextId)
      ensures id !in old(rows) ==> r == None && rows == old(rows)
      ensures id in old(rows) ==>
        r == Some(Updated(old(rows)[id], p)) && rows == old(rows)[id := r.value]
    {
      if id !in rows {
        return None;
      }
      var loc := rows[id];
      // the assignment loop over the fields the request set
      if p.materialId.Set? { loc := loc.(materialId := p.materialId.value); }
      if p.trayNumber.Set? { loc := loc.(trayNumber := p.trayNumber.value); }
      if p.processId.Set? { loc := loc.(processId := p.processId.value); }
      if p.taskId.Set? { loc := loc.(taskId := p.taskId.value); }
      if p.status.Set? && p.status.value.Some? { loc := loc.(status := p.status.value.value); }
      assert loc == Patched(rows[id], p);
      // the status follows the (possibly new) material id
      var k := Classify(loc.materialId);
      loc := loc.(materialId := k.materialId, status := k.status);
      // an explicit status wins only when the material id was not sent
      if p.status.Set? && p.status.value.Some? && p.materialId.Unset? {
        loc := loc.(status := p.status.value.value);
      }
      rows := rows[id := loc];
      r := Some(loc);
    }

    /** `delete_location`: removes exactly the row with that id and returns it. */
    method Delete(id: int) returns (r: Option<Location>)
      requires Valid()
      modifies this
      ensures Valid() && nextId == old(nextId)
      ensures id !in old(rows) ==> r == None && rows == old(rows)
      ensures id in old(rows) ==> r == Some(old(rows)[id]) && rows == old(rows) - {id}
    {
      if id in rows {
        r := Some(rows[id]);
        rows := rows - {id};
      } else {
        r := None;
      }
    }

    /** `clear_location_by_id`: None and no change for a missing id. */
    method Clear(id: int) returns (r: Option<Location>)
      requires Valid()
      modifies this
      ensures Valid() && nextId == old(nextId)
      ensures id !in old(rows) ==> r == None && rows == old(rows)
      ensures id in old(rows) ==> r == Some(Cleared(old(rows)[id])) && rows == old(rows)[id := r.value]
    {
      if id !in rows {
        return None;
      }
      var loc := rows[id];
      loc := loc.(materialId := None, processId := None, taskId := None, status := Empty);
      rows := rows[id := loc];
      r := Some(loc);
    }

    /** `batch_update_locations`: items without an id or without dictionary
        data, and items naming a missing row, are skipped. The result holds one
        record per applied item, in input order; as the store hands back live
        rows, each is the row's state after the whole batch. */
    method BatchUpdate(entries: seq<BatchEntry>) returns (r: seq<Location>)
      requires Valid()
      modifies this
      ensures Valid() && nextId == old(nextId)
      ensures rows == BatchUpdated(old(rows), entries)
      ensures rows.Keys == old(rows).Keys
      ensures |r| == |AppliedIds(old(rows), entries)|
      ensures forall i :: 0 <= i < |r| ==> r[i] == rows[AppliedIds(old(rows), entries)[i]]
    {
      ghost var rows0 := rows;
      var ids: seq<int> := [];
      var i := 0;
      while i < |entries|
        invariant 0 <= i <= |entries|
        invariant Valid() && nextId == old(nextId)
        invariant rows == BatchUpdated(rows0, entries[..i])
        invariant ids == AppliedIds(rows0, entries[..i])
      {
        assert entries[..i + 1][..i] == entries[..i];
        var e := entries[i];
        if e.id.Some? && e.data.Data? {
          var updated := Update(e.id.value, e.data.patch);
          if updated.Some? {
            ids := ids + [e.id.value];
          }
        }
        i := i + 1;
      }
      assert entries[..i] == entries;
      r := RowsOf(rows, ids);
    }

    /** `batch_clear_locations_by_ids`: clears each listed row that exists and
        returns the cleared records in input order; missing ids are skipped. */
    method BatchClearByIds(ids: seq<int>) returns (r: seq<Location>)
      requires Valid()
      modifies this
      ensures Valid() && nextId == old(nextId)
      ensures rows == ClearedIds(old(rows), ids)
      ensures r == ClearedRecords(old(rows), ids)
      ensures |r| == |ExistingIds(old(rows), ids)|
      ensures forall i :: 0 <= i < |r| ==> r[i] == rows[ExistingIds(old(rows), ids)[i]]
    {
      ghost var rows0 := rows;
      r := [];
      var i := 0;
      while i < |ids|
        invariant 0 <= i <= |ids|
        invariant Valid() && nextId == old(nextId)
        invariant rows == ClearedIds(rows0, ids[..i])
        invariant r == ClearedRecords(rows0, ids[..i])
      {
        assert ids[..i + 1][..i] == ids[..i];
        ClearedIdsStep(rows0, ids, i);
        if ids[i] in rows0 {
          ClearAfterClearedIds(rows0, ids[..i], ids[i]);
        }
        var cleared := Clear(ids[i]);
        if cleared.Some? {
          r := r + [cleared.value];
        }
        i := i + 1;
      }
      assert ids[..i] == ids;
      forall j | 0 <= j < |r|
        ensures r[j] == rows[ExistingIds(rows0, ids)[j]]
      {
        ExistingIdsExactly(rows0, ids, ExistingIds(rows0, ids)[j]);
      }
    }

    /** `batch_clear_locations_by_tray`: fetches the rows on the tray in the
        store's order, clears each of them and no other row, and returns each
        cleared row once. */
    method BatchClearByTray(scan: seq<int>, tray: string) returns (r: seq<Location>)
      requires Valid() && IsScanOf(rows, scan)
      modifies this
      ensures Valid() && nextId == old(nextId)
      ensures rows == ClearedTray(old(rows), tray)
      ensures IdsOf(r) == SelectIds(old(rows), scan, OnTray(tray))
      ensures NoDuplicates(IdsOf(r))
      ensures forall k :: k in IdsOf(r) <==> k in old(rows) && old(rows)[k].trayNumber == tray
      ensures forall i :: 0 <= i < |r| ==> r[i].id in rows && r[i] == rows[r[i].id]
    {
      ghost var rows0 := rows;
      var ids := SelectIds(rows, scan, OnTray(tray));
      r := [];
      for i := 0 to |ids|
        invariant Valid() && nextId == old(nextId)
        invariant rows == ClearedIds(rows0, ids[..i])
        invariant r == ClearedRecords(rows0, ids[..i])
      {
        var k := ids[i];
        ClearAfterClearedIds(rows0, ids[..i], k);
        ClearedRecordsStep(rows0, ids, i);
        var loc := rows[k];
        loc := loc.(materialId := None, processId := None, taskId := None, status := Empty);
        rows := rows[k := loc];
        r := r + [loc];
        ClearedIdsStep(rows0, ids, i);
      }
      assert ids[..|ids|] == ids;
      ClearedTrayByIds(rows0, scan, tray);
      ClearedTrayRecords(rows0, scan, tray);
    }
  }
}
