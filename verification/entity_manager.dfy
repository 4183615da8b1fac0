/**
 * The entity manager: the per-key lifecycle (transient, MANAGED, DELETED)
 * that turns find, persist, merge and remove into loader and persister
 * calls plus persistence-context updates.
 *
 * The loader and the persister are storage collaborators. Each call the
 * manager makes to them is appended to the ghost `log`; what storage
 * answers to a call is a parameter of the operation (`loaded` for the
 * loader, `executed` for the persister), used only when the call is made.
 */
module EntityManagers {
  import opened Wrappers
  import opened BuilderData
  import opened EntityEntries
  import opened PersistenceContexts

  /** A failure reported by storage, propagated unchanged to the caller. */
  datatype StorageError = NotFound | Ambiguous | StatementFailed(message: string)

  /** One call into storage. */
  datatype StorageCall =
    | Load(key: EntityKey)
    | Insert(data: EntityData)
    | Update(data: EntityData)
    | Delete(data: EntityData)

  /** True iff the key has an entry and that entry is MANAGED. */
  predicate IsManaged(entries: map<EntityKey, EntityEntry>, key: EntityKey) {
    key in entries && entries[key].EqualsEntityStatus(Managed)
  }

  /** The context invariant: every MANAGED key has live data and a snapshot. */
  predicate ManagedIsTracked(entities: map<EntityKey, EntityData>, snapshots: map<EntityKey, EntityData>,
                             entries: map<EntityKey, EntityEntry>) {
    forall key :: key in entries && entries[key].EqualsEntityStatus(Managed) ==> key in entities && key in snapshots
  }

  class EntityManagerImpl {
    const context: PersistenceContextImpl
    /** Every loader and persister call made so far, in order. */
    ghost var log: seq<StorageCall>

    ghost predicate Valid()
      reads this, context
    {
      ManagedIsTracked(context.entityMap, context.snapShotMap, context.entityEntryMap)
    }

    /** A manager over a new, empty context. */
    constructor ()
      ensures Valid() && fresh(context) && log == []
      ensures context.entityMap == map[] && context.snapShotMap == map[] && context.entityEntryMap == map[]
    {
      context := new PersistenceContextImpl();
      log := [];
    }

    /** A manager over a context supplied by the caller. */
    constructor WithContext(ctx: PersistenceContextImpl)
      requires ManagedIsTracked(ctx.entityMap, ctx.snapShotMap, ctx.entityEntryMap)
      ensures Valid() && context == ctx && log == []
    {
      context := ctx;
      log := [];
    }

    /**
     * find: a MANAGED key is answered from the identity map without a
     * storage call; otherwise the loader is called once, and on success the
     * loaded instance is tracked in both maps under the requested key and
     * marked MANAGED.
     */
    method Find(clazz: string, id: Value, loaded: Result<Entity, StorageError>)
      returns (r: Result<Entity, StorageError>)
      requires Valid()
      modifies this, context
      ensures Valid()
      ensures var key := EntityKey(id, clazz);
        if IsManaged(old(context.entityEntryMap), key) then
          && r == Success(old(context.entityMap)[key].instance)
          && log == old(log)
          && unchanged(context)
        else
          && log == old(log) + [Load(key)]
          && r == loaded
          && (loaded.Failure? ==> unchanged(context))
          && (loaded.Success? ==>
                && context.entityMap == old(context.entityMap)[key := CreateData(loaded.value)]
                && context.snapShotMap == old(context.snapShotMap)[key := CreateData(loaded.value)]
                && context.entityEntryMap == old(context.entityEntryMap)[key := EntityEntry(Managed)])
    {
      var key := EntityKey(id, clazz);
      var entry := context.GetEntityEntryMap(key);
      if entry.Some? && entry.value.EqualsEntityStatus(Managed) {
        var cached := context.FindEntity(key);
        return Success(cached.value.instance);
      }
      log := log + [Load(key)];
      if loaded.Failure? {
        return Failure(loaded.error);
      }
      var data := CreateData(loaded.value);
      InsertPersistenceContext(key, data);
      context.InsertEntityEntryMap(key, Managed);
      r := Success(loaded.value);
    }

    /**
     * persist: always one insert through the persister, even for a key that
     * is already MANAGED; on success both maps hold the snapshot and the key
     * is MANAGED.
     */
    method Persist(entity: Entity, executed: Outcome<StorageError>) returns (r: Outcome<StorageError>)
      requires Valid()
      modifies this, context
      ensures Valid()
      ensures log == old(log) + [Insert(CreateData(entity))]
      ensures r == executed
      ensures executed.Fail? ==> unchanged(context)
      ensures executed.Pass? ==>
        var key := EntityKey(entity.id, entity.clazz);
        && context.entityMap == old(context.entityMap)[key := CreateData(entity)]
        && context.snapShotMap == old(context.snapShotMap)[key := CreateData(entity)]
        && context.entityEntryMap == old(context.entityEntryMap)[key := EntityEntry(Managed)]
    {
      var data := CreateData(entity);
      log := log + [Insert(data)];
      if executed.Fail? {
        return executed;
      }
      var key := data.Key();
      InsertPersistenceContext(key, data);
      context.InsertEntityEntryMap(key, Managed);
      r := Pass;
    }

    /**
     * merge: a no-op unless the key is MANAGED; a no-op as well when no
     * column differs from the stored snapshot; otherwise one update carrying
     * only the differing columns, after which both maps hold the full live
     * snapshot and the status stays MANAGED.
     */
    method Merge(entity: Entity, executed: Outcome<StorageError>) returns (r: Outcome<StorageError>)
      requires Valid()
      modifies this, context
      ensures Valid()
      ensures var key := EntityKey(entity.id, entity.clazz);
        if !IsManaged(old(context.entityEntryMap), key) then
          r == Pass && log == old(log) && unchanged(context)
        else
          var diff := DirtyCheck(CreateData(entity), old(context.snapShotMap)[key]);
          if diff.columns == [] then
            r == Pass && log == old(log) && unchanged(context)
          else
            && log == old(log) + [Update(diff)]
            && r == executed
            && (executed.Fail? ==> unchanged(context))
            && (executed.Pass? ==>
                  && context.entityMap == old(context.entityMap)[key := CreateData(entity)]
                  && context.snapShotMap == old(context.snapShotMap)[key := CreateData(entity)]
                  && context.entityEntryMap == old(context.entityEntryMap))
    {
      var data := CreateData(entity);
      var key := data.Key();
      var entry := context.GetEntityEntryMap(key);
      if entry.Some? && entry.value.EqualsEntityStatus(Managed) {
        var stored := context.GetDatabaseSnapshot(key);
        var diff := DirtyCheck(data, stored.value);
        if diff.columns == [] {
          return Pass;
        }
        log := log + [Update(diff)];
        if executed.Fail? {
          return executed;
        }
        InsertPersistenceContext(key, data);
      }
      r := Pass;
    }

    /**
     * remove: one delete through the persister; on success the key leaves
     * the live map and its status becomes DELETED, while its snapshot is
     * kept as a tombstone.
     */
    method Remove(entity: Entity, executed: Outcome<StorageError>) returns (r: Outcome<StorageError>)
      requires Valid()
      modifies this, context
      ensures Valid()
      ensures log == old(log) + [Delete(CreateData(entity))]
      ensures r == executed
      ensures executed.Fail? ==> unchanged(context)
      ensures executed.Pass? ==>
        var key := EntityKey(entity.id, entity.clazz);
        && context.entityMap == old(context.entityMap) - {key}
        && context.snapShotMap == old(context.snapShotMap)
        && context.entityEntryMap == old(context.entityEntryMap)[key := EntityEntry(Deleted)]
    {
      var data := CreateData(entity);
      log := log + [Delete(data)];
      if executed.Fail? {
        return executed;
      }
      context.DeleteEntity(EntityKey(data.id, entity.clazz));
      context.InsertEntityEntryMap(data.Key(), Deleted);
      r := Pass;
    }

    /** Stores the same snapshot as live data and as synchronised snapshot. */
    method InsertPersistenceContext(key: EntityKey, data: EntityData)
      modifies context
      ensures context.entityMap == old(context.entityMap)[key := data]
      ensures context.snapShotMap == old(context.snapShotMap)[key := data]
      ensures context.entityEntryMap == old(context.entityEntryMap)
    {
      context.InsertEntity(key, data);
      context.InsertDatabaseSnapshot(key, data);
    }
  }
}
