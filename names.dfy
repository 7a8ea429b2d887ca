/*
 * Resolving the table of a column reference (sql/executor/select_executor.cpp).
 *
 * `MatchTable` decides whether a condition side refers to a given table;
 * `UniqueTableName` is the table a bare column name resolves to, defined by
 * the list of relations holding the column, and `GetUniqueTableName` is the
 * executor's counting loop, proved to compute it.
 */
module NameResolution {
  import opened Common
  import opened Schemas

  /**
   * A table named in a condition matches exactly that table; an unnamed
   * side matches whatever table when, and only when, the query reads a
   * single relation.
   */
  function MatchTable(relations: seq<string>, inCondition: Option<string>, table: string): (r: bool)
    ensures inCondition == Some(table) ==> r
    ensures r && |relations| != 1 ==> inCondition == Some(table)
  {
    match inCondition
    case Some(name) => name == table
    case None => |relations| == 1
  }

  /** The schema has a column `table.field`. */
  predicate Holds(schema: Schema, table: string, field: string) {
    IndexOfField(schema, table, field) != -1
  }

  /** The positions, in increasing order, of the relations whose columns in `schema` include `field`. */
  function Holders(schema: Schema, relations: seq<string>, field: string): (r: seq<nat>)
    ensures forall k :: 0 <= k < |r| ==> r[k] < |relations| && Holds(schema, relations[r[k]], field)
    ensures forall i :: 0 <= i < |relations| && Holds(schema, relations[i], field) ==> i in r
    ensures forall k, m :: 0 <= k < m < |r| ==> r[k] < r[m]
  {
    if relations == [] then []
    else
      var n := |relations| - 1;
      var h := Holders(schema, relations[..n], field);
      assert forall i :: 0 <= i < n ==> relations[..n][i] == relations[i];
      if Holds(schema, relations[n], field) then h + [n] else h
  }

  /** Looking at fewer relations never finds more holders. */
  lemma {:induction false} HoldersGrow(schema: Schema, relations: seq<string>, field: string, k: nat)
    requires k <= |relations|
    ensures |Holders(schema, relations[..k], field)| <= |Holders(schema, relations, field)|
    decreases |relations| - k
  {
    if k < |relations| {
      assert relations[..k + 1][..k] == relations[..k];
      HoldersGrow(schema, relations, field, k + 1);
    } else {
      assert relations[..k] == relations;
    }
  }

  /** The relation a bare column name belongs to: defined only when exactly one relation holds it. */
  function UniqueTableName(schema: Schema, relations: seq<string>, field: string): (r: Option<string>)
    ensures r.Some? ==> r.value in relations && Holds(schema, r.value, field)
  {
    var h := Holders(schema, relations, field);
    if |h| == 1 then Some(relations[h[0]]) else None
  }

  /** The name resolves to `t` exactly when one relation, and only that one, holds the column, and it is `t`. */
  lemma UniqueTableNameIff(schema: Schema, relations: seq<string>, field: string, t: string)
    ensures UniqueTableName(schema, relations, field) == Some(t) <==>
      exists i :: 0 <= i < |relations| && Holds(schema, relations[i], field) && relations[i] == t
        && forall j :: 0 <= j < |relations| && Holds(schema, relations[j], field) ==> j == i
  {
    var h := Holders(schema, relations, field);
    if UniqueTableName(schema, relations, field) == Some(t) {
      var i := h[0];
      forall j | 0 <= j < |relations| && Holds(schema, relations[j], field) ensures j == i {
        assert j in h;
      }
    }
    if exists i :: 0 <= i < |relations| && Holds(schema, relations[i], field) && relations[i] == t
        && forall j :: 0 <= j < |relations| && Holds(schema, relations[j], field) ==> j == i {
      var i :| 0 <= i < |relations| && Holds(schema, relations[i], field) && relations[i] == t
        && forall j :: 0 <= j < |relations| && Holds(schema, relations[j], field) ==> j == i;
      assert i in h;
      IncreasingHead(h);
    }
  }

  /** The first two elements of a strictly increasing sequence differ. */
  lemma IncreasingHead(h: seq<nat>)
    requires forall k, m :: 0 <= k < m < |h| ==> h[k] < h[m]
    ensures |h| >= 2 ==> h[0] < h[1]
  {
  }

  /** A column held by two different relations is ambiguous and does not resolve. */
  lemma UniqueTableNameAmbiguous(schema: Schema, relations: seq<string>, field: string, i: nat, j: nat)
    requires i < j < |relations|
    requires Holds(schema, relations[i], field) && Holds(schema, relations[j], field)
    ensures UniqueTableName(schema, relations, field) == None
  {
    var h := Holders(schema, relations, field);
    assert i in h && j in h;
  }

  /**
   * The executor's scan over the relations in their stored order: it counts
   * the holders and gives up as soon as it meets a second one.
   */
  method GetUniqueTableName(schema: Schema, relations: seq<string>, field: string) returns (r: Option<string>)
    ensures r == UniqueTableName(schema, relations, field)
  {
    var cnt := 0;
    var tableName: Option<string> := None;
    var i := 0;
    while i < |relations|
      invariant 0 <= i <= |relations|
      invariant cnt == |Holders(schema, relations[..i], field)| <= 1
      invariant tableName == (if cnt == 1 then Some(relations[Holders(schema, relations[..i], field)[0]]) else None)
    {
      assert relations[..i + 1][..i] == relations[..i];
      if IndexOfField(schema, relations[i], field) != -1 {
        cnt := cnt + 1;
        if cnt == 2 {
          HoldersGrow(schema, relations, field, i + 1);
          return None;
        }
        tableName := Some(relations[i]);
      }
      i := i + 1;
    }
    assert relations[..i] == relations;
    return tableName;
  }

  /** The table a plain column belongs to: the one named, or the unique relation holding it. */
  function ColumnTable(schema: Schema, relations: seq<string>, a: RelAttr): (r: Option<string>)
    requires a.attribute.Some?
    ensures a.relation.Some? ==> r == a.relation
    ensures a.relation.None? && r.Some? ==> r.value in relations && Holds(schema, r.value, a.attribute.value)
  {
    if a.relation.Some? then a.relation else UniqueTableName(schema, relations, a.attribute.value)
  }
}
