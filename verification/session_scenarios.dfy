/**
 * Sequences of entity-manager calls within one session, with what a caller
 * can rely on after them.
 */
module SessionScenarios {
  import opened Wrappers
  import opened BuilderData
  import opened EntityEntries
  import opened EntityManagers

  /**
   * Identity map: two finds of the same key return the same instance, and
   * the second one makes no storage call whatever storage would answer.
   */
  method FindTwice(m: EntityManagerImpl, clazz: string, id: Value,
                   loaded: Result<Entity, StorageError>, reloaded: Result<Entity, StorageError>)
    returns (first: Result<Entity, StorageError>, second: Result<Entity, StorageError>)
    requires m.Valid()
    requires loaded.Success?
    modifies m, m.context
    ensures m.Valid()
    ensures second == first
    ensures |m.log| <= |old(m.log)| + 1
    ensures IsManaged(old(m.context.entityEntryMap), EntityKey(id, clazz)) ==> m.log == old(m.log)
    ensures !IsManaged(old(m.context.entityEntryMap), EntityKey(id, clazz)) ==>
              first == loaded && m.log == old(m.log) + [Load(EntityKey(id, clazz))]
  {
    first := m.Find(clazz, id, loaded);
    ghost var afterFirst := m.log;
    second := m.Find(clazz, id, reloaded);
    assert m.log == afterFirst;
  }

  /**
   * A persisted entity is found again in the same session, with its own
   * field values and without a storage read.
   */
  method PersistThenFind(m: EntityManagerImpl, entity: Entity, loaded: Result<Entity, StorageError>)
    returns (found: Result<Entity, StorageError>)
    requires m.Valid()
    modifies m, m.context
    ensures m.Valid()
    ensures found == Success(entity)
    ensures m.log == old(m.log) + [Insert(CreateData(entity))]
  {
    var written := m.Persist(entity, Pass);
    found := m.Find(entity.clazz, entity.id, loaded);
  }

  /**
   * Dirty-check short-circuit: merging an entity unchanged since it was
   * persisted issues no update and leaves the context as persist left it.
   */
  method PersistThenMergeUnchanged(m: EntityManagerImpl, entity: Entity, executed: Outcome<StorageError>)
    returns (r: Outcome<StorageError>)
    requires m.Valid()
    requires UniqueNames(entity.fields)
    modifies m, m.context
    ensures m.Valid()
    ensures r == Pass
    ensures m.log == old(m.log) + [Insert(CreateData(entity))]
    ensures IsManaged(m.context.entityEntryMap, EntityKey(entity.id, entity.clazz))
    ensures var key := EntityKey(entity.id, entity.clazz);
      && key in m.context.entityMap && m.context.entityMap[key] == CreateData(entity)
      && key in m.context.snapShotMap && m.context.snapShotMap[key] == CreateData(entity)
  {
    var written := m.Persist(entity, Pass);
    DiffAgainstSelfIsEmpty(entity.fields);
    r := m.Merge(entity, executed);
  }

  /**
   * A changed entity merged after persist yields one update carrying only
   * the changed columns; afterwards both maps hold the full new snapshot.
   */
  method PersistThenMergeChanged(m: EntityManagerImpl, before: Entity, after: Entity)
    returns (r: Outcome<StorageError>)
    requires m.Valid()
    requires before.clazz == after.clazz && before.id == after.id
    requires DifferentColumns(after.fields, before.fields) != []
    modifies m, m.context
    ensures m.Valid()
    ensures r == Pass
    ensures m.log == old(m.log) + [Insert(CreateData(before)),
                                   Update(CreateData(after).ChangeColumns(DifferentColumns(after.fields, before.fields)))]
    ensures var key := EntityKey(after.id, after.clazz);
      && key in m.context.entityMap && m.context.entityMap[key] == CreateData(after)
      && key in m.context.snapShotMap && m.context.snapShotMap[key] == CreateData(after)
  {
    var written := m.Persist(before, Pass);
    r := m.Merge(after, Pass);
  }

  /**
   * After remove, the key is gone from the live map and tombstoned as
   * DELETED; a later find of the same key is not answered from the context
   * but goes to storage again, and the tombstone stays when storage has no
   * row for it.
   */
  method RemoveThenFind(m: EntityManagerImpl, entity: Entity, loaded: Result<Entity, StorageError>)
    returns (found: Result<Entity, StorageError>)
    requires m.Valid()
    modifies m, m.context
    ensures m.Valid()
    ensures found == loaded
    ensures m.log == old(m.log) + [Delete(CreateData(entity)), Load(EntityKey(entity.id, entity.clazz))]
    ensures loaded.Failure? ==>
      var key := EntityKey(entity.id, entity.clazz);
      && key !in m.context.entityMap
      && key in m.context.entityEntryMap && m.context.entityEntryMap[key] == EntityEntry(Deleted)
  {
    var removed := m.Remove(entity, Pass);
    found := m.Find(entity.clazz, entity.id, loaded);
  }
}
