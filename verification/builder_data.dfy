/**
 * The data the persistence context tracks per entity: the key an entity is
 * tracked under and the immutable column snapshot built from an entity
 * instance (the repository's DMLBuilderData), with the column diff that
 * dirty checking relies on.
 */
module BuilderData {
  import opened Wrappers

  /** A column value as read from an entity field. */
  datatype Value =
    | LongValue(l: int)
    | IntegerValue(i: int)
    | StringValue(s: string)
    | BooleanValue(b: bool)
    | NullValue

  datatype Column = Column(name: string, value: Value)

  /** Identity-map key: equal iff same entity type and equal identifier. */
  datatype EntityKey = EntityKey(id: Value, clazz: string)

  /**
   * An entity instance: its type, its identifier and its persistable fields
   * in declaration order.
   */
  datatype Entity = Entity(clazz: string, id: Value, fields: seq<Column>)

  /** A snapshot of one entity: type, identifier, instance and ordered columns. */
  datatype EntityData = EntityData(clazz: string, id: Value, instance: Entity, columns: seq<Column>)
  {
    /** The key the snapshot is tracked under. */
    function Key(): EntityKey {
      EntityKey(id, clazz)
    }

    /** The same snapshot with its columns replaced (changeColumns). */
    function ChangeColumns(cols: seq<Column>): (d: EntityData)
      ensures d.Key() == Key() && d.instance == instance && d.columns == cols
    {
      this.(columns := cols)
    }
  }

  /** The snapshot built from a live entity instance (createDMLBuilderData). */
  function CreateData(e: Entity): (d: EntityData)
    ensures d.Key() == EntityKey(e.id, e.clazz) && d.instance == e && d.columns == e.fields
  {
    EntityData(e.clazz, e.id, e, e.fields)
  }

  /** The value of the first column named `name`, if any. */
  function Lookup(cols: seq<Column>, name: string): (r: Option<Value>)
    ensures r.Some? <==> exists c :: c in cols && c.name == name
    ensures r.Some? ==> Column(name, r.value) in cols
  {
    if cols == [] then None
    else if cols[0].name == name then Some(cols[0].value)
    else Lookup(cols[1..], name)
  }

  /** True iff no two columns share a name (the fields of one entity class). */
  predicate UniqueNames(cols: seq<Column>) {
    forall i, j :: 0 <= i < j < |cols| ==> cols[i].name != cols[j].name
  }

  /** A live column is dirty when the stored snapshot does not hold the same value under its name. */
  predicate IsDirty(c: Column, stored: seq<Column>) {
    Lookup(stored, c.name) != Some(c.value)
  }

  /**
   * getDifferentColumns: the live columns whose value differs from the
   * stored snapshot's value for the same column name, in live order.
   */
  function DifferentColumns(live: seq<Column>, stored: seq<Column>): (d: seq<Column>)
    ensures forall c :: c in d <==> c in live && IsDirty(c, stored)
    ensures |d| <= |live|
  {
    if live == [] then []
    else if IsDirty(live[0], stored) then [live[0]] + DifferentColumns(live[1..], stored)
    else DifferentColumns(live[1..], stored)
  }

  /** checkDirtyCheck: the live snapshot cut down to its dirty columns. */
  function DirtyCheck(live: EntityData, stored: EntityData): (d: EntityData)
    ensures d.Key() == live.Key() && d.instance == live.instance
    ensures forall c :: c in d.columns <==> c in live.columns && IsDirty(c, stored.columns)
  {
    live.ChangeColumns(DifferentColumns(live.columns, stored.columns))
  }

  /** The diff keeps live order: diffing a concatenation diffs each part in turn. */
  lemma {:induction false} DifferentColumnsAppend(a: seq<Column>, b: seq<Column>, stored: seq<Column>)
    ensures DifferentColumns(a + b, stored) == DifferentColumns(a, stored) + DifferentColumns(b, stored)
  {
    if a != [] {
      assert (a + b)[1..] == a[1..] + b;
      DifferentColumnsAppend(a[1..], b, stored);
    } else {
      assert a + b == b;
    }
  }

  /** A column that is kept is kept as the live column itself, with its live value. */
  lemma DifferentColumnsSingle(c: Column, stored: seq<Column>)
    ensures DifferentColumns([c], stored) == if IsDirty(c, stored) then [c] else []
  {
    assert [c][1..] == [];
  }

  /** In a snapshot with unique names, Lookup finds each column's own value. */
  lemma {:induction false} LookupMember(cols: seq<Column>, i: nat)
    requires UniqueNames(cols) && i < |cols|
    ensures Lookup(cols, cols[i].name) == Some(cols[i].value)
  {
    if i > 0 {
      assert cols[0].name != cols[i].name;
      assert UniqueNames(cols[1..]) by {
        forall p, q | 0 <= p < q < |cols[1..]| ensures cols[1..][p].name != cols[1..][q].name {
          assert cols[1..][p] == cols[p + 1] && cols[1..][q] == cols[q + 1];
        }
      }
      LookupMember(cols[1..], i - 1);
    }
  }

  /** A snapshot with unique column names has no dirty column against itself. */
  lemma DiffAgainstSelfIsEmpty(cols: seq<Column>)
    requires UniqueNames(cols)
    ensures DifferentColumns(cols, cols) == []
  {
    forall c | c in cols ensures !IsDirty(c, cols) {
      var i :| 0 <= i < |cols| && cols[i] == c;
      LookupMember(cols, i);
    }
    DiffEmptyIffClean(cols, cols);
  }

  /** The diff is empty exactly when every live column matches the stored snapshot. */
  lemma DiffEmptyIffClean(live: seq<Column>, stored: seq<Column>)
    ensures DifferentColumns(live, stored) == [] <==> forall c :: c in live ==> !IsDirty(c, stored)
  {
    if DifferentColumns(live, stored) != [] {
      assert DifferentColumns(live, stored)[0] in DifferentColumns(live, stored);
    }
  }

  /** Two snapshots that differ in one column (name "a"/"b", age 1/1) diff to that column only. */
  lemma DiffExample()
    ensures DifferentColumns([Column("name", StringValue("a")), Column("age", IntegerValue(1))],
                             [Column("name", StringValue("b")), Column("age", IntegerValue(1))])
         == [Column("name", StringValue("a"))]
  {
    var live := [Column("name", StringValue("a")), Column("age", IntegerValue(1))];
    var stored := [Column("name", StringValue("b")), Column("age", IntegerValue(1))];
    assert Lookup(stored, "name") == Some(StringValue("b"));
    assert stored[1..] == [Column("age", IntegerValue(1))];
    assert Lookup(stored, "age") == Some(IntegerValue(1));
    assert live[1..][1..] == [];
  }
}
