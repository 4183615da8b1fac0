# Persistence context and entity manager of a minimal JPA-style ORM

This project models, in Dafny, the unit-of-work core of a small object-relational
mapper written in Java, together with its DELETE statement builder:

- `EntityEntry` (module `EntityEntries`): the immutable status wrapper of a tracked
  entity (MANAGED or DELETED) and its status test.
- `PersistenceContextImpl` (module `PersistenceContexts`): a class with three map
  fields keyed by entity key (type and identifier) — the live data (`entityMap`), the
  snapshot as last synchronised with the database (`snapShotMap`) and the status of each
  key (`entityEntryMap`). Each method is one put, get or remove on one map, and its
  contract says which map changes and that the other two do not.
- `EntityManagerImpl` (module `EntityManagers`): `find`, `persist`, `merge` and
  `remove` as methods over the context. The entity loader and the entity persister are
  storage collaborators: every call the manager makes to them is appended to a ghost
  `log` of storage calls, and what storage answers is a parameter of the operation, so
  that "no storage read" and "no UPDATE issued" are stated by the contracts. The class
  invariant `Valid()` is "a MANAGED key has live data and a snapshot", which every
  operation preserves and on which `find` and `merge` rely.
- The entity snapshot (`DMLBuilderData`, module `BuilderData`): type, identifier,
  instance and an ordered sequence of columns, with the dirty-check diff: the live
  columns whose value differs from the stored snapshot's value for the same column
  name, in live-column order.
- `DeleteQueryBuilder` (module `DeleteQuery`): the condition map filtered by the
  table's ordered column list, each column rendered as `col = value`, joined with
  `" AND "`, after `"DELETE FROM <table> WHERE "`.
- Module `SessionScenarios`: call sequences within one session (find twice, persist
  then find, persist then merge, remove then find) and what they guarantee.

The model follows the code where a reader might expect otherwise:
`find` after `remove` is not answered from the DELETED tombstone but goes to the loader
again (DELETED is simply not MANAGED); `persist` of a key that is already MANAGED issues
another insert and does not fail; `merge` of a key that is not MANAGED is a silent no-op.
The entity manager calls `checkEntityStatus` on an entry whose class declares
`equalsEntityStatus`; both are modelled as `EntityEntry.EqualsEntityStatus`. `remove`
builds the key it deletes from the live map with the instance's class and the key it
tombstones with the snapshot's class; the snapshot's class is the instance's class, so
both are the same key here.

## Model

| member | source | states |
|---|---|---|
| EntityEntries.EntityEntry.EqualsEntityStatus | src/main/java/persistence/EntityEntry.java:11-13 | the test is true if and only if the given status is the stored one |
| EntityEntries.EntryAnswersOnlyItsStatus | src/main/java/persistence/EntityEntry.java:5-13 | an entry built with a status answers true for exactly that status; MANAGED answers false for DELETED and DELETED false for MANAGED |
| EntityEntries.AtMostOneStatus | src/main/java/persistence/EntityEntry.java:11-13 | no entry matches two different statuses |
| PersistenceContexts.PersistenceContextImpl.constructor | src/main/java/persistence/PersistenceContextImpl.java:11-13 | a new context has all three maps empty |
| PersistenceContexts.PersistenceContextImpl.FindEntity | src/main/java/persistence/PersistenceContextImpl.java:15-18 | returns the live data for the key, and None exactly when the key is untracked |
| PersistenceContexts.PersistenceContextImpl.InsertEntity | src/main/java/persistence/PersistenceContextImpl.java:20-23 | the live map gains or overwrites the key's entry; snapshot and status maps are unchanged |
| PersistenceContexts.PersistenceContextImpl.DeleteEntity | src/main/java/persistence/PersistenceContextImpl.java:25-28 | the key leaves the live map, every other key keeps its data, and the snapshot and status maps (including the key's own entries) are unchanged |
| PersistenceContexts.PersistenceContextImpl.InsertDatabaseSnapshot | src/main/java/persistence/PersistenceContextImpl.java:30-33 | the snapshot map gains or overwrites the key's entry; live and status maps are unchanged |
| PersistenceContexts.PersistenceContextImpl.GetDatabaseSnapshot | src/main/java/persistence/PersistenceContextImpl.java:35-38 | returns the stored snapshot for the key, and None exactly when there is none |
| PersistenceContexts.PersistenceContextImpl.InsertEntityEntryMap | src/main/java/persistence/PersistenceContextImpl.java:40-44 | the key's entry is replaced by a new entry with the given status; live and snapshot maps are unchanged |
| PersistenceContexts.PersistenceContextImpl.GetEntityEntryMap | src/main/java/persistence/PersistenceContextImpl.java:46-49 | returns the key's status entry, and None exactly when it has none |
| PersistenceContexts.InsertThenFind | src/test/java/persistence/PersistenceContextImplTest.java:23-34 | after two inserts under one key, findEntity returns the second value; the other maps are untouched |
| PersistenceContexts.DeleteThenFind | src/test/java/persistence/PersistenceContextImplTest.java:39-47 | after deleteEntity the key is absent, any other key still returns its old data, and snapshot and status maps are unchanged |
| PersistenceContexts.SnapshotIsNotLiveData | src/test/java/persistence/PersistenceContextImplTest.java:52-70 | a snapshot insert is readable through getDatabaseSnapshot but not through findEntity |
| PersistenceContexts.EntryReadsBack | src/test/java/persistence/PersistenceContextImplTest.java:75-81 | an entry stored as MANAGED reads back as MANAGED and not as DELETED |
| BuilderData.EntityData.ChangeColumns | src/main/java/persistence/EntityManagerImpl.java:90 | replacing the columns keeps the key and the instance of the snapshot |
| BuilderData.CreateData | src/main/java/persistence/EntityManagerImpl.java:48-50 | the snapshot of an instance carries the instance itself, is keyed by the instance's identifier and class, and has the instance's fields as its columns |
| BuilderData.DifferentColumns | src/main/java/persistence/EntityManagerImpl.java:83-91 | a column is in the diff if and only if it is a live column whose value the stored snapshot does not hold under the same name; the diff is no longer than the live columns |
| BuilderData.DifferentColumnsAppend | src/main/java/persistence/EntityManagerImpl.java:88 | the diff of a concatenation is the concatenation of the diffs, so the diff keeps live-column order |
| BuilderData.DifferentColumnsSingle | src/main/java/persistence/EntityManagerImpl.java:88 | a single live column is kept, with its live value, exactly when it is dirty |
| BuilderData.DirtyCheck | src/main/java/persistence/EntityManagerImpl.java:83-91 | the dirty-check result has the live snapshot's key and instance and exactly its dirty columns |
| BuilderData.DiffAgainstSelfIsEmpty | src/main/java/persistence/EntityManagerImpl.java:63-67 | a snapshot with distinct column names has an empty diff against itself |
| BuilderData.DiffEmptyIffClean | src/main/java/persistence/EntityManagerImpl.java:63-67 | the diff is empty if and only if every live column matches the stored snapshot |
| BuilderData.DiffExample | src/main/java/persistence/EntityManagerImpl.java:88 | name "a"/"b" with equal age 1 diffs to the single live column name = "a" |
| EntityManagers.EntityManagerImpl.constructor | src/main/java/persistence/EntityManagerImpl.java:15-19 | a new manager owns a fresh empty context, satisfies the invariant and has made no storage call |
| EntityManagers.EntityManagerImpl.WithContext | src/main/java/persistence/EntityManagerImpl.java:21-25 | a manager over a given context uses that very context |
| EntityManagers.EntityManagerImpl.Find | src/main/java/persistence/EntityManagerImpl.java:27-44 | a MANAGED key returns the cached instance with no storage call and no context change; otherwise exactly one load, whose failure propagates with the context unchanged and whose success is stored in both maps under the requested key with status MANAGED and returned; the invariant is preserved |
| EntityManagers.EntityManagerImpl.Persist | src/main/java/persistence/EntityManagerImpl.java:46-53 | exactly one insert of the snapshot, also for an already MANAGED key; on success both maps hold the snapshot and the status is MANAGED, on failure the context is unchanged; the invariant is preserved |
| EntityManagers.EntityManagerImpl.Merge | src/main/java/persistence/EntityManagerImpl.java:55-73 | no storage call and no change unless the key is MANAGED and its diff is non-empty; then exactly one update carrying only the dirty columns, after which both maps hold the full live snapshot and the status is unchanged; the invariant is preserved |
| EntityManagers.EntityManagerImpl.Remove | src/main/java/persistence/EntityManagerImpl.java:75-81 | exactly one delete; on success the key leaves the live map, its status becomes DELETED and its snapshot is kept; the invariant is preserved |
| EntityManagers.EntityManagerImpl.InsertPersistenceContext | src/main/java/persistence/EntityManagerImpl.java:93-96 | the same data goes into the live map and the snapshot map; statuses are unchanged |
| SessionScenarios.FindTwice | src/main/java/persistence/EntityManagerImpl.java:27-44 | two finds of one key return the same result and make at most one storage read between them, the second none |
| SessionScenarios.PersistThenFind | src/main/java/persistence/EntityManagerImpl.java:27-53 | a persisted entity is found again with its own values, with the insert as the only storage call |
| SessionScenarios.PersistThenMergeUnchanged | src/main/java/persistence/EntityManagerImpl.java:46-73 | merging an entity unchanged since persist issues no update and leaves it MANAGED, with the persisted snapshot as both live data and stored snapshot |
| SessionScenarios.PersistThenMergeChanged | src/main/java/persistence/EntityManagerImpl.java:46-73 | merging a changed entity issues one update of only the changed columns and stores the full new snapshot in both maps |
| SessionScenarios.RemoveThenFind | src/main/java/persistence/EntityManagerImpl.java:27-81 | after remove, find goes to storage again; when storage has no row the key stays out of the live map with a DELETED tombstone |
| DeleteQuery.DeleteQueryBuilder.BuildQuery | src/main/java/database/sql/dml/DeleteQueryBuilder.java:23-25 | the statement is the "DELETE FROM table WHERE " prefix followed by the where-part and nothing else |
| DeleteQuery.DeleteQueryBuilder.WhereClause | src/main/java/database/sql/dml/DeleteQueryBuilder.java:31-37 | the where-part is empty if and only if no listed column has a condition |
| DeleteQuery.DeleteQueryBuilder.BuildQueryById | src/main/java/database/sql/dml/DeleteQueryBuilder.java:27-29 | the by-identifier statement starts with the "DELETE FROM table WHERE " prefix, is only that prefix when the primary-key column is not listed, and has a where-part when it is |
| DeleteQuery.Join | src/main/java/database/sql/dml/DeleteQueryBuilder.java:37 | no parts join to ""; otherwise the result starts with the first part and ends with the last |
| DeleteQuery.MatchedColumns | src/main/java/database/sql/dml/DeleteQueryBuilder.java:32-33 | a name is matched if and only if it is a listed column with a condition |
| DeleteQuery.Clauses | src/main/java/database/sql/dml/DeleteQueryBuilder.java:34-36 | one clause per column, in order, each `col = quote(value)` |
| DeleteQuery.MatchedColumnsAppend | src/main/java/database/sql/dml/DeleteQueryBuilder.java:32-33 | matching distributes over a split column list, so clauses follow the column list's order whatever the map |
| DeleteQuery.MatchedColumnsAll | src/main/java/database/sql/dml/DeleteQueryBuilder.java:32-33 | when every listed column has a condition, the clauses come exactly in column-list order |
| DeleteQuery.MatchedColumnsIgnoresUnlisted | src/main/java/database/sql/dml/DeleteQueryBuilder.java:33 | only condition keys that are listed columns affect the match |
| DeleteQuery.MatchedColumnsNone | src/main/java/database/sql/dml/DeleteQueryBuilder.java:32-33 | nothing is matched if and only if no listed column has a condition |
| DeleteQuery.WhereClauseDropsUnknownKey | src/main/java/database/sql/dml/DeleteQueryBuilder.java:31-37 | adding a condition on a key that is not a listed column leaves the where-part unchanged |
| DeleteQuery.JoinLength | src/main/java/database/sql/dml/DeleteQueryBuilder.java:37 | joining k parts gives their total length plus k-1 separators |
| DeleteQuery.JoinEmpty | src/main/java/database/sql/dml/DeleteQueryBuilder.java:37 | joining non-empty parts is empty if and only if there are no parts |
| DeleteQuery.WhereClauseEmptyIff | src/main/java/database/sql/dml/DeleteQueryBuilder.java:23-37 | the where-part is empty, and the statement ends in " WHERE ", if and only if no listed column has a condition |
| DeleteQuery.WhereClauseLength | src/main/java/database/sql/dml/DeleteQueryBuilder.java:31-37 | with k matched columns the where-part is the k clauses plus k-1 " AND " separators long |
| DeleteQuery.BuildQueryByIdShape | src/main/java/database/sql/dml/DeleteQueryBuilder.java:27-29 | by identifier: a primary key listed once gives the single clause `pk = quote(id)`; an unlisted primary key gives a statement ending in " WHERE " |

## Left out

- The entity loader, the entity persister, the JDBC wrapper and the database: each call is a `StorageCall` appended to the ghost log, and storage's answer (a loaded entity or a failure, a statement that passed or failed) is a parameter of the operation; SQL generation for insert, select and update is not modelled.
- Entity instances are immutable values: the source tracks mutable Java objects by reference, so an instance changed by the caller after `persist` is also changed inside the context; that aliasing is not modelled.
- `DMLBuilderData.createDMLBuilderData`, `getDifferentColumns` and `changeColumns` are not part of this model; `CreateData`, `DifferentColumns` and `ChangeColumns` give their behaviour by definition.
- BuilderData.DifferentColumns: a live column missing from the stored snapshot counts as dirty; the fatal error for snapshots with different column sets is not modelled.
- EntityManagers.EntityManagerImpl.Find, Merge, Persist, Remove, WithContext: require the invariant that a MANAGED key has live data and a snapshot. The source's second constructor accepts any context, and a context that breaks the invariant can be built by calling the context directly. On such a context `find` and `merge` fail with a null dereference, while `persist` and `remove` still work. The model covers neither case.
- EntityManagers.EntityManagerImpl.Merge: the source computes the dirty check twice (once for the emptiness test, once for the update); with nothing changing in between both give the same value, computed once here.
- The source's `EntityStatus` enum is not shown; it is modelled with only the two values the code assigns, MANAGED and DELETED.
- Null arguments, class casts and exceptions other than storage failures are not modelled.
- `DeleteQueryBuilder`'s metadata is given as its three fields instead of being reflected from an entity class by `EntityMetadata`; the value-quoting function `Util.quote` is not part of this model and is a parameter of the builder's functions.
- `PersistenceContext` and `entity/EntityManager` are interfaces without logic; the class models stand for them.
- Concurrency: the context is single-session and unsynchronised; the model is sequential.
