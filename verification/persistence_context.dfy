/**
 * The persistence context: three hash maps keyed by entity key, each
 * operation a put, get or remove on exactly one of them.
 */
module PersistenceContexts {
  import opened Wrappers
  import opened BuilderData
  import opened EntityEntries

  class PersistenceContextImpl {
    /** The live tracked data. */
    var entityMap: map<EntityKey, EntityData>
    /** The snapshot as last synchronised with storage. */
    var snapShotMap: map<EntityKey, EntityData>
    /** The lifecycle status of each key. */
    var entityEntryMap: map<EntityKey, EntityEntry>

    constructor ()
      ensures entityMap == map[] && snapShotMap == map[] && entityEntryMap == map[]
    {
      entityMap := map[];
      snapShotMap := map[];
      entityEntryMap := map[];
    }

    /** The tracked data for `key`, or None when the key is untracked. */
    method FindEntity(key: EntityKey) returns (r: Option<EntityData>)
      ensures r.Some? <==> key in entityMap
      ensures r.Some? ==> r.value == entityMap[key]
    {
      r := if key in entityMap then Some(entityMap[key]) else None;
    }

    /** Upserts the live data for `key`; the other two maps are untouched. */
    method InsertEntity(key: EntityKey, data: EntityData)
      modifies this
      ensures entityMap == old(entityMap)[key := data]
      ensures snapShotMap == old(snapShotMap) && entityEntryMap == old(entityEntryMap)
    {
      entityMap := entityMap[key := data];
    }

    /** Removes `key` from the live data only; its snapshot and status stay. */
    method DeleteEntity(key: EntityKey)
      modifies this
      ensures entityMap == old(entityMap) - {key}
      ensures snapShotMap == old(snapShotMap) && entityEntryMap == old(entityEntryMap)
    {
      entityMap := entityMap - {key};
    }

    /** Upserts the synchronised snapshot for `key`; the other two maps are untouched. */
    method InsertDatabaseSnapshot(key: EntityKey, data: EntityData)
      modifies this
      ensures snapShotMap == old(snapShotMap)[key := data]
      ensures entityMap == old(entityMap) && entityEntryMap == old(entityEntryMap)
    {
      snapShotMap := snapShotMap[key := data];
    }

    /** The synchronised snapshot for `key`, or None when there is none. */
    method GetDatabaseSnapshot(key: EntityKey) returns (r: Option<EntityData>)
      ensures r.Some? <==> key in snapShotMap
      ensures r.Some? ==> r.value == snapShotMap[key]
    {
      r := if key in snapShotMap then Some(snapShotMap[key]) else None;
    }

    /** Replaces the entry for `key` with a fresh entry holding `status`. */
    method InsertEntityEntryMap(key: EntityKey, status: EntityStatus)
      modifies this
      ensures entityEntryMap == old(entityEntryMap)[key := EntityEntry(status)]
      ensures entityMap == old(entityMap) && snapShotMap == old(snapShotMap)
    {
      var entry := EntityEntry(status);
      entityEntryMap := entityEntryMap[key := entry];
    }

    /** The status entry for `key`, or None when the key has never been given one. */
    method GetEntityEntryMap(key: EntityKey) returns (r: Option<EntityEntry>)
      ensures r.Some? <==> key in entityEntryMap
      ensures r.Some? ==> r.value == entityEntryMap[key]
    {
      r := if key in entityEntryMap then Some(entityEntryMap[key]) else None;
    }
  }

  /** insertEntity then findEntity on the same key returns the inserted data, overwriting any earlier value. */
  method InsertThenFind(ctx: PersistenceContextImpl, key: EntityKey, first: EntityData, second: EntityData)
    returns (r: Option<EntityData>)
    modifies ctx
    ensures r == Some(second)
    ensures ctx.snapShotMap == old(ctx.snapShotMap) && ctx.entityEntryMap == old(ctx.entityEntryMap)
  {
    ctx.InsertEntity(key, first);
    ctx.InsertEntity(key, second);
    r := ctx.FindEntity(key);
  }

  /** deleteEntity makes the key absent, keeps every other key, and leaves its snapshot and status. */
  method DeleteThenFind(ctx: PersistenceContextImpl, key: EntityKey, other: EntityKey)
    returns (r: Option<EntityData>, kept: Option<EntityData>)
    requires other != key
    modifies ctx
    ensures r == None
    ensures kept.Some? <==> other in old(ctx.entityMap)
    ensures kept.Some? ==> kept.value == old(ctx.entityMap)[other]
    ensures ctx.snapShotMap == old(ctx.snapShotMap) && ctx.entityEntryMap == old(ctx.entityEntryMap)
  {
    ctx.DeleteEntity(key);
    r := ctx.FindEntity(key);
    kept := ctx.FindEntity(other);
  }

  /** A snapshot insert on a fresh context is readable as a snapshot but not as live data. */
  method SnapshotIsNotLiveData(key: EntityKey, data: EntityData)
    returns (live: Option<EntityData>, snap: Option<EntityData>)
    ensures live == None && snap == Some(data)
  {
    var ctx := new PersistenceContextImpl();
    ctx.InsertDatabaseSnapshot(key, data);
    live := ctx.FindEntity(key);
    snap := ctx.GetDatabaseSnapshot(key);
  }

  /** An entry stored with MANAGED reads back as MANAGED and not as DELETED. */
  method EntryReadsBack(key: EntityKey) returns (managed: bool, deleted: bool)
    ensures managed && !deleted
  {
    var ctx := new PersistenceContextImpl();
    ctx.InsertEntityEntryMap(key, Managed);
    var entry := ctx.GetEntityEntryMap(key);
    managed := entry.Some? && entry.value.EqualsEntityStatus(Managed);
    deleted := entry.Some? && entry.value.EqualsEntityStatus(Deleted);
  }
}
