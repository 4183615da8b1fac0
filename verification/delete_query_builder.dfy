/**
 * The DELETE statement builder: a condition map filtered by the table's
 * ordered column list, each kept column rendered as `col = value`, the
 * clauses joined with " AND ".
 *
 * The table metadata (name, ordered column names, primary-key column) is
 * given directly instead of being reflected from an entity class, and the
 * value-quoting function is a parameter.
 */
module DeleteQuery {
  import opened BuilderData

  /** A Java `long`. */
  type Long = x: int | -0x8000_0000_0000_0000 <= x < 0x8000_0000_0000_0000

  const AndSeparator: string := " AND "

  /** The fixed part of every statement, up to the where-part. */
  function Prefix(tableName: string): string {
    "DELETE FROM " + tableName + " WHERE "
  }

  /** Collectors.joining(sep): the parts with `sep` between each neighbouring pair. */
  function Join(parts: seq<string>, sep: string): (r: string)
    ensures parts == [] ==> r == ""
    ensures parts != [] ==> |parts[0]| <= |r| && r[..|parts[0]|] == parts[0]
    ensures parts != [] ==> |parts[|parts| - 1]| <= |r| && r[|r| - |parts[|parts| - 1]|..] == parts[|parts| - 1]
  {
    if |parts| == 0 then ""
    else if |parts| == 1 then parts[0]
    else parts[0] + sep + Join(parts[1..], sep)
  }

  /** The sum of the lengths of the parts. */
  function TotalLength(parts: seq<string>): nat {
    if parts == [] then 0 else |parts[0]| + TotalLength(parts[1..])
  }

  /** One condition clause. */
  function Clause(column: string, value: Value, quote: Value -> string): string {
    column + " = " + quote(value)
  }

  /** The column names, in column-list order, that the condition map has a value for. */
  function MatchedColumns(columnNames: seq<string>, conditionMap: map<string, Value>): (m: seq<string>)
    ensures forall c :: c in m <==> c in columnNames && c in conditionMap
    ensures |m| <= |columnNames|
  {
    if columnNames == [] then []
    else if columnNames[0] in conditionMap then [columnNames[0]] + MatchedColumns(columnNames[1..], conditionMap)
    else MatchedColumns(columnNames[1..], conditionMap)
  }

  /** The clause for each column, in the given order. */
  function Clauses(columns: seq<string>, conditionMap: map<string, Value>, quote: Value -> string): (cs: seq<string>)
    requires forall c :: c in columns ==> c in conditionMap
    ensures |cs| == |columns|
    ensures forall i :: 0 <= i < |columns| ==> cs[i] == Clause(columns[i], conditionMap[columns[i]], quote)
  {
    if columns == [] then []
    else [Clause(columns[0], conditionMap[columns[0]], quote)] + Clauses(columns[1..], conditionMap, quote)
  }

  datatype DeleteQueryBuilder = DeleteQueryBuilder(tableName: string, allColumnNames: seq<string>,
                                                   primaryKeyColumnName: string)
  {
    /** whereClause: the joined clauses of the matched columns. */
    function WhereClause(conditionMap: map<string, Value>, quote: Value -> string): (w: string)
      ensures w == "" <==> MatchedColumns(allColumnNames, conditionMap) == []
    {
      var cs := Clauses(MatchedColumns(allColumnNames, conditionMap), conditionMap, quote);
      assert forall i :: 0 <= i < |cs| ==> |cs[i]| >= |" = "|;
      JoinEmpty(cs, AndSeparator);
      Join(cs, AndSeparator)
    }

    /** buildQuery(Map): the prefix followed by the where-part, with nothing after it. */
    function BuildQuery(conditionMap: map<string, Value>, quote: Value -> string): (q: string)
      ensures |q| == |Prefix(tableName)| + |WhereClause(conditionMap, quote)|
      ensures q[..|Prefix(tableName)|] == Prefix(tableName)
      ensures q[|Prefix(tableName)|..] == WhereClause(conditionMap, quote)
    {
      Prefix(tableName) + WhereClause(conditionMap, quote)
    }

    /** buildQuery(long): a one-entry condition map on the primary-key column. */
    function BuildQueryById(id: Long, quote: Value -> string): (q: string)
      ensures |Prefix(tableName)| <= |q| && q[..|Prefix(tableName)|] == Prefix(tableName)
      ensures primaryKeyColumnName !in allColumnNames ==> q == Prefix(tableName)
      ensures primaryKeyColumnName in allColumnNames ==> |q| > |Prefix(tableName)|
    {
      MatchedColumnsNone(allColumnNames, map[primaryKeyColumnName := LongValue(id)]);
      BuildQuery(map[primaryKeyColumnName := LongValue(id)], quote)
    }
  }

  /** Matching distributes over a split column list, so clauses follow the column list's order. */
  lemma {:induction false} MatchedColumnsAppend(a: seq<string>, b: seq<string>, conditionMap: map<string, Value>)
    ensures MatchedColumns(a + b, conditionMap) == MatchedColumns(a, conditionMap) + MatchedColumns(b, conditionMap)
  {
    if a == [] {
      assert a + b == b;
    } else {
      assert (a + b)[1..] == a[1..] + b;
      MatchedColumnsAppend(a[1..], b, conditionMap);
    }
  }

  /** When every listed column has a condition, the clauses come exactly in column-list order. */
  lemma {:induction false} MatchedColumnsAll(columnNames: seq<string>, conditionMap: map<string, Value>)
    requires forall c :: c in columnNames ==> c in conditionMap
    ensures MatchedColumns(columnNames, conditionMap) == columnNames
  {
    if columnNames != [] {
      MatchedColumnsAll(columnNames[1..], conditionMap);
    }
  }

  /** Only condition keys that are listed columns matter; all other keys are dropped. */
  lemma {:induction false} MatchedColumnsIgnoresUnlisted(columnNames: seq<string>, m1: map<string, Value>,
                                                        m2: map<string, Value>)
    requires forall c :: c in columnNames ==> (c in m1 <==> c in m2)
    ensures MatchedColumns(columnNames, m1) == MatchedColumns(columnNames, m2)
  {
    if columnNames != [] {
      MatchedColumnsIgnoresUnlisted(columnNames[1..], m1, m2);
    }
  }

  /** Nothing matches exactly when no listed column has a condition. */
  lemma {:induction false} MatchedColumnsNone(columnNames: seq<string>, conditionMap: map<string, Value>)
    ensures MatchedColumns(columnNames, conditionMap) == [] <==> forall c :: c in columnNames ==> c !in conditionMap
  {
    if columnNames != [] {
      MatchedColumnsNone(columnNames[1..], conditionMap);
    }
  }

  /** A condition on a key that is not a listed column does not change the where-part. */
  lemma WhereClauseDropsUnknownKey(b: DeleteQueryBuilder, conditionMap: map<string, Value>, key: string,
                                   value: Value, quote: Value -> string)
    requires key !in b.allColumnNames
    ensures b.WhereClause(conditionMap[key := value], quote) == b.WhereClause(conditionMap, quote)
  {
    var extended := conditionMap[key := value];
    MatchedColumnsIgnoresUnlisted(b.allColumnNames, extended, conditionMap);
    var cols := MatchedColumns(b.allColumnNames, conditionMap);
    assert Clauses(cols, extended, quote) == Clauses(cols, conditionMap, quote);
  }

  /** Joining k parts yields their total length plus k-1 separators. */
  lemma {:induction false} JoinLength(parts: seq<string>, sep: string)
    requires parts != []
    ensures |Join(parts, sep)| == TotalLength(parts) + (|parts| - 1) * |sep|
  {
    if |parts| > 1 {
      JoinLength(parts[1..], sep);
      calc {
        |Join(parts, sep)|;
        |parts[0]| + |sep| + |Join(parts[1..], sep)|;
        |parts[0]| + |sep| + TotalLength(parts[1..]) + (|parts| - 2) * |sep|;
        { assert (|parts| - 2) * |sep| + |sep| == (|parts| - 1) * |sep|; }
        TotalLength(parts) + (|parts| - 1) * |sep|;
      }
    }
  }

  /** Joining non-empty parts gives the empty string exactly when there are no parts. */
  lemma {:induction false} JoinEmpty(parts: seq<string>, sep: string)
    requires forall i :: 0 <= i < |parts| ==> parts[i] != ""
    ensures Join(parts, sep) == "" <==> parts == []
  {
    if |parts| > 1 {
      assert |Join(parts, sep)| >= |parts[0]| > 0;
    }
  }

  /** The where-part is empty exactly when no listed column has a condition. */
  lemma WhereClauseEmptyIff(b: DeleteQueryBuilder, conditionMap: map<string, Value>, quote: Value -> string)
    ensures b.WhereClause(conditionMap, quote) == "" <==> forall c :: c in b.allColumnNames ==> c !in conditionMap
    ensures b.WhereClause(conditionMap, quote) == "" <==> b.BuildQuery(conditionMap, quote) == Prefix(b.tableName)
  {
    var cols := MatchedColumns(b.allColumnNames, conditionMap);
    var cs := Clauses(cols, conditionMap, quote);
    forall i | 0 <= i < |cs| ensures cs[i] != "" {
      assert |cs[i]| >= |" = "|;
    }
    JoinEmpty(cs, AndSeparator);
    MatchedColumnsNone(b.allColumnNames, conditionMap);
  }

  /** With k matched columns the where-part is the k clauses plus k-1 " AND " separators. */
  lemma WhereClauseLength(b: DeleteQueryBuilder, conditionMap: map<string, Value>, quote: Value -> string)
    requires MatchedColumns(b.allColumnNames, conditionMap) != []
    ensures var cs := Clauses(MatchedColumns(b.allColumnNames, conditionMap), conditionMap, quote);
      |b.WhereClause(conditionMap, quote)| == TotalLength(cs) + (|cs| - 1) * |AndSeparator|
  {
    JoinLength(Clauses(MatchedColumns(b.allColumnNames, conditionMap), conditionMap, quote), AndSeparator);
  }

  /**
   * By identifier: with the primary key listed exactly once among the
   * columns, the statement deletes by that single clause; with the primary
   * key not listed, the statement ends right after " WHERE ".
   */
  lemma BuildQueryByIdShape(b: DeleteQueryBuilder, id: Long, quote: Value -> string)
    ensures var pk := b.primaryKeyColumnName;
      (pk !in b.allColumnNames ==> b.BuildQueryById(id, quote) == Prefix(b.tableName))
      && (forall before, after :: b.allColumnNames == before + [pk] + after && pk !in before && pk !in after ==>
            b.BuildQueryById(id, quote) == Prefix(b.tableName) + Clause(pk, LongValue(id), quote))
  {
    var pk := b.primaryKeyColumnName;
    var cm := map[pk := LongValue(id)];
    if pk !in b.allColumnNames {
      WhereClauseEmptyIff(b, cm, quote);
    }
    forall before, after | b.allColumnNames == before + [pk] + after && pk !in before && pk !in after
      ensures b.BuildQueryById(id, quote) == Prefix(b.tableName) + Clause(pk, LongValue(id), quote)
    {
      MatchedColumnsAppend(before + [pk], after, cm);
      MatchedColumnsAppend(before, [pk], cm);
      MatchedColumnsNone(before, cm);
      MatchedColumnsNone(after, cm);
      assert MatchedColumns([pk], cm) == [pk] by { MatchedColumnsAll([pk], cm); }
      assert MatchedColumns(b.allColumnNames, cm) == [pk];
    }
  }
}
