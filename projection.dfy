/*
 * Projection (`get_select_tuple_schema`, `TupleProjcet` and `project` in
 * sql/executor/select_executor.cpp).
 *
 * The select list is turned into the result schema, walking it from its
 * last stored item to its first; each result column is then located in the
 * joined schema and every joined tuple is cut down to those columns.
 */
module Projection {
  import opened Common
  import opened Schemas
  import opened NameResolution

  /** A select-list item that is a bare `*`. */
  predicate BareStar(a: RelAttr) {
    a.attribute == Some("*") && a.relation.None?
  }

  /**
   * What the select list must satisfy for the walk not to crash: every item
   * has a column name, and a table named explicitly by a plain column exists.
   */
  predicate ItemReadable(cat: Catalogue, a: RelAttr) {
    a.attribute.Some? && (a.attribute.value != "*" && a.relation.Some? ==> a.relation.value in cat)
  }

  predicate SelectListReadable(cat: Catalogue, attrs: seq<RelAttr>) {
    forall k :: 0 <= k < |attrs| ==> ItemReadable(cat, attrs[k])
  }

  predicate RelationsKnown(cat: Catalogue, relations: seq<string>) {
    forall k :: 0 <= k < |relations| ==> relations[k] in cat
  }

  lemma ColumnTableKnown(cat: Catalogue, schema: Schema, relations: seq<string>, a: RelAttr)
    requires RelationsKnown(cat, relations) && a.attribute.Some?
    requires a.attribute.value != "*" && (a.relation.Some? ==> a.relation.value in cat)
    ensures ColumnTable(schema, relations, a).Some? ==> ColumnTable(schema, relations, a).value in cat
  {
    if a.relation.None? && ColumnTable(schema, relations, a).Some? {
      UniqueTableNameIff(schema, relations, a.attribute.value, ColumnTable(schema, relations, a).value);
    }
  }

  /**
   * The column a plain select-list item stands for: its resolved table and
   * the table's field of that name, with the field's type; none when the
   * table cannot be resolved or has no such field.
   */
  function ItemColumn(cat: Catalogue, relations: seq<string>, schema: Schema, a: RelAttr): (c: Option<TupleField>)
    requires a.attribute.Some?
    ensures c.Some? ==> ColumnTable(schema, relations, a) == Some(c.value.table) && c.value.table in cat
    ensures c.Some? ==> c.value.field == a.attribute.value && c.value.aggregate.None?
    ensures c.Some? ==> FindFieldMeta(cat[c.value.table], a.attribute.value).Some?
    ensures c.Some? ==> c.value.ftype == FindFieldMeta(cat[c.value.table], a.attribute.value).value.ftype
  {
    match ColumnTable(schema, relations, a)
    case None => None
    case Some(t) =>
      if t !in cat then None
      else match FindFieldMeta(cat[t], a.attribute.value)
        case None => None
        case Some(m) => Some(TupleField(m.ftype, t, m.name, None))
  }

  /** What one select-list item does to the schema built so far: extend it, or end the walk. */
  datatype Step = Continue(acc: Schema) | Stop(result: Result<Schema>)

  /**
   * One item of the walk. A bare `*` is accepted only as the first item
   * walked, and then the result is the whole joined schema; `t.*` appends
   * the columns of table `t`; a plain column is added unless already present.
   */
  function Visit(cat: Catalogue, relations: seq<string>, schema: Schema, a: RelAttr, first: bool, acc: Schema)
    : (s: Step)
    requires ItemReadable(cat, a) && RelationsKnown(cat, relations)
    ensures s.Stop? && s.result.Err? ==> s.result.rc in {SqlSyntax, SchemaTableNotExist, SchemaFieldMissing}
    ensures s.Stop? && s.result.Ok? <==> BareStar(a) && first
    ensures s.Stop? && s.result.Ok? ==> s.result.value == schema
    ensures BareStar(a) && !first ==> s == Stop(Err(SqlSyntax))
    ensures s.Continue? ==> acc <= s.acc
    ensures s.Continue? && a.attribute.value != "*" ==>
      ColumnTable(schema, relations, a).Some? && Holds(s.acc, ColumnTable(schema, relations, a).value, a.attribute.value)
  {
    var field := a.attribute.value;
    if field == "*" then
      if a.relation.None? then Stop(if first then Ok(schema) else Err(SqlSyntax))
      else if a.relation.value !in cat then Stop(Err(SchemaTableNotExist))
      else Continue(acc + FromTable(a.relation.value, cat[a.relation.value]))
    else
      match ColumnTable(schema, relations, a)
      case None => Stop(Err(SqlSyntax))
      case Some(t) =>
        ColumnTableKnown(cat, schema, relations, a);
        match FindFieldMeta(cat[t], field)
        case None => Stop(Err(SchemaFieldMissing))
        case Some(m) =>
          var f := TupleField(m.ftype, t, m.name, None);
          Continue(AddIfNotExists(acc, f))
  }

  /**
   * What one item adds: `t.*` appends exactly table `t`'s columns, and a plain
   * column goes on exactly when it resolves to a field of its table, and then
   * adds only that column.
   */
  lemma VisitAdds(cat: Catalogue, relations: seq<string>, schema: Schema, a: RelAttr, first: bool, acc: Schema)
    requires ItemReadable(cat, a) && RelationsKnown(cat, relations)
    ensures TableStar(cat, a) ==>
      Visit(cat, relations, schema, a, first, acc) == Continue(acc + FromTable(a.relation.value, cat[a.relation.value]))
    ensures a.attribute.value != "*" ==>
      (Visit(cat, relations, schema, a, first, acc).Continue? <==> ItemColumn(cat, relations, schema, a).Some?)
    ensures a.attribute.value != "*" && Visit(cat, relations, schema, a, first, acc).Continue? ==>
      Visit(cat, relations, schema, a, first, acc).acc == AddIfNotExists(acc, ItemColumn(cat, relations, schema, a).value)
  {
    if a.attribute.value != "*" && ColumnTable(schema, relations, a).Some? {
      ColumnTableKnown(cat, schema, relations, a);
    }
  }

  /** The walk over `attrs[..i]`, from `attrs[i - 1]` down to `attrs[0]`, building on `acc`. */
  function SelectFrom(cat: Catalogue, relations: seq<string>, schema: Schema, attrs: seq<RelAttr>, i: nat, acc: Schema)
    : (r: Result<Schema>)
    requires SelectListReadable(cat, attrs) && RelationsKnown(cat, relations) && i <= |attrs|
    ensures r.Err? ==> r.rc in {SqlSyntax, SchemaTableNotExist, SchemaFieldMissing}
    ensures r.Ok? && (i < |attrs| || attrs == [] || !BareStar(attrs[|attrs| - 1])) ==> acc <= r.value
    ensures r.Ok? && (i < |attrs| || attrs == [] || !BareStar(attrs[|attrs| - 1])) ==>
      CoversPlainColumns(schema, relations, attrs, i, r.value) && StarsCovered(cat, attrs, i, r.value)
    ensures r.Ok? && (i < |attrs| || attrs == [] || !BareStar(attrs[|attrs| - 1])) ==>
      FromListed(cat, relations, schema, attrs, i, acc, r.value)
    decreases i
  {
    if i == 0 then Ok(acc)
    else
      match Visit(cat, relations, schema, attrs[i - 1], i == |attrs|, acc)
      case Stop(r) => r
      case Continue(next) =>
        var r := SelectFrom(cat, relations, schema, attrs, i - 1, next);
        if r.Ok? then
          PrefixTransitive(acc, next, r.value);
          WalkStep(cat, relations, schema, attrs, i, acc, next, r.value);
          r
        else r
  }

  /** Every column of `result` was in `acc` or is added by an item of `attrs[..i]`. */
  predicate FromListed(cat: Catalogue, relations: seq<string>, schema: Schema, attrs: seq<RelAttr>, i: nat,
                       acc: Schema, result: Schema)
    requires i <= |attrs|
  {
    forall f :: f in result ==> f in acc || ListedBefore(cat, relations, schema, attrs, i, f)
  }

  /** Every column of the table of each `t.*` item of `attrs[..i]` is in `result`. */
  predicate StarsCovered(cat: Catalogue, attrs: seq<RelAttr>, i: nat, result: Schema)
    requires i <= |attrs|
  {
    forall k, f ::
      (0 <= k < i && TableStar(cat, attrs[k]) && f in FromTable(attrs[k].relation.value, cat[attrs[k].relation.value]))
      ==> f in result
  }

  /** One more item walked keeps all three: plain columns present, `t.*` tables covered, nothing unlisted. */
  lemma WalkStep(cat: Catalogue, relations: seq<string>, schema: Schema, attrs: seq<RelAttr>, i: nat,
                 acc: Schema, next: Schema, res: Schema)
    requires SelectListReadable(cat, attrs) && RelationsKnown(cat, relations) && 0 < i <= |attrs|
    requires Visit(cat, relations, schema, attrs[i - 1], i == |attrs|, acc) == Continue(next)
    requires next <= res
    requires CoversPlainColumns(schema, relations, attrs, i - 1, res) && StarsCovered(cat, attrs, i - 1, res)
    requires FromListed(cat, relations, schema, attrs, i - 1, next, res)
    ensures CoversPlainColumns(schema, relations, attrs, i, res) && StarsCovered(cat, attrs, i, res)
    ensures FromListed(cat, relations, schema, attrs, i, acc, res)
  {
    assert ItemReadable(cat, attrs[i - 1]);
    VisitAdds(cat, relations, schema, attrs[i - 1], i == |attrs|, acc);
    PlainStep(cat, relations, schema, attrs, i, acc, next, res);
    StarStep(cat, attrs, i, acc, next, res);
    ListedStep(cat, relations, schema, attrs, i, acc, next, res);
  }

  lemma PlainStep(cat: Catalogue, relations: seq<string>, schema: Schema, attrs: seq<RelAttr>, i: nat,
                  acc: Schema, next: Schema, res: Schema)
    requires SelectListReadable(cat, attrs) && RelationsKnown(cat, relations) && 0 < i <= |attrs|
    requires Visit(cat, relations, schema, attrs[i - 1], i == |attrs|, acc) == Continue(next)
    requires next <= res && CoversPlainColumns(schema, relations, attrs, i - 1, res)
    ensures CoversPlainColumns(schema, relations, attrs, i, res)
  {
    var a := attrs[i - 1];
    assert ItemReadable(cat, a);
    if a.attribute.value != "*" {
      IndexOfFieldPrefix(next, res, ColumnTable(schema, relations, a).value, a.attribute.value);
    }
  }

  lemma StarStep(cat: Catalogue, attrs: seq<RelAttr>, i: nat, acc: Schema, next: Schema, res: Schema)
    requires 0 < i <= |attrs|
    requires TableStar(cat, attrs[i - 1]) ==>
      next == acc + FromTable(attrs[i - 1].relation.value, cat[attrs[i - 1].relation.value])
    requires next <= res && StarsCovered(cat, attrs, i - 1, res)
    ensures StarsCovered(cat, attrs, i, res)
  {
    forall k, f | 0 <= k < i && TableStar(cat, attrs[k])
      && f in FromTable(attrs[k].relation.value, cat[attrs[k].relation.value])
      ensures f in res
    {
      if k == i - 1 {
        InPiece(acc, FromTable(attrs[k].relation.value, cat[attrs[k].relation.value]), res, f);
      }
    }
  }

  lemma ListedStep(cat: Catalogue, relations: seq<string>, schema: Schema, attrs: seq<RelAttr>, i: nat,
                   acc: Schema, next: Schema, res: Schema)
    requires 0 < i <= |attrs| && attrs[i - 1].attribute.Some?
    requires TableStar(cat, attrs[i - 1]) ==>
      next == acc + FromTable(attrs[i - 1].relation.value, cat[attrs[i - 1].relation.value])
    requires attrs[i - 1].attribute.value == "*" ==> TableStar(cat, attrs[i - 1])
    requires attrs[i - 1].attribute.value != "*" ==>
      ItemColumn(cat, relations, schema, attrs[i - 1]).Some?
      && next == AddIfNotExists(acc, ItemColumn(cat, relations, schema, attrs[i - 1]).value)
    requires FromListed(cat, relations, schema, attrs, i - 1, next, res)
    ensures FromListed(cat, relations, schema, attrs, i, acc, res)
  {
    forall f | f in res
      ensures f in acc || ListedBefore(cat, relations, schema, attrs, i, f)
    {
      if ListedBefore(cat, relations, schema, attrs, i - 1, f) {
        var k :| 0 <= k < i - 1 && Contributes(cat, relations, schema, attrs[k], f);
        assert 0 <= k < i;
      } else if f !in acc {
        assert f in next;
        assert Contributes(cat, relations, schema, attrs[i - 1], f);
      }
    }
  }


  /** Every plain column of `attrs[..i]` is named, under its resolved table, by `result`. */
  predicate CoversPlainColumns(schema: Schema, relations: seq<string>, attrs: seq<RelAttr>, i: nat, result: Schema)
    requires i <= |attrs|
  {
    forall k :: 0 <= k < i && attrs[k].attribute.Some? && attrs[k].attribute.value != "*" ==>
      ColumnTable(schema, relations, attrs[k]).Some?
      && Holds(result, ColumnTable(schema, relations, attrs[k]).value, attrs[k].attribute.value)
  }

  /** Column `f` is one that item `a` adds: a column of table `t` for `t.*`, or the item's own column. */
  predicate Contributes(cat: Catalogue, relations: seq<string>, schema: Schema, a: RelAttr, f: TupleField) {
    a.attribute.Some? &&
    if a.attribute.value == "*" then
      a.relation.Some? && a.relation.value in cat && f in FromTable(a.relation.value, cat[a.relation.value])
    else
      ItemColumn(cat, relations, schema, a) == Some(f)
  }

  /** Some item of `attrs[..i]` adds column `f`. */
  predicate ListedBefore(cat: Catalogue, relations: seq<string>, schema: Schema, attrs: seq<RelAttr>, i: nat, f: TupleField)
    requires i <= |attrs|
  {
    exists k :: 0 <= k < i && Contributes(cat, relations, schema, attrs[k], f)
  }

  /** Every column of `result` is added by some item of the select list. */
  predicate OnlyListedColumns(cat: Catalogue, relations: seq<string>, schema: Schema, attrs: seq<RelAttr>, result: Schema) {
    forall f :: f in result ==> ListedBefore(cat, relations, schema, attrs, |attrs|, f)
  }

  /** A select-list item `t.*` naming a known table. */
  predicate TableStar(cat: Catalogue, a: RelAttr) {
    a.attribute == Some("*") && a.relation.Some? && a.relation.value in cat
  }

  /**
   * The result schema of a select list: the whole joined schema for a bare
   * `*` written first, and otherwise a schema holding every plain column the
   * list names and every column of each `t.*` table, and no other column;
   * the errors are those of a single item.
   */
  function SelectSchema(cat: Catalogue, relations: seq<string>, schema: Schema, attrs: seq<RelAttr>): (r: Result<Schema>)
    requires SelectListReadable(cat, attrs) && RelationsKnown(cat, relations)
    ensures r.Err? ==> r.rc in {SqlSyntax, SchemaTableNotExist, SchemaFieldMissing}
    ensures attrs != [] && BareStar(attrs[|attrs| - 1]) ==> r == Ok(schema)
    ensures r.Ok? && (attrs == [] || !BareStar(attrs[|attrs| - 1])) ==>
      CoversPlainColumns(schema, relations, attrs, |attrs|, r.value)
    ensures r.Ok? && (attrs == [] || !BareStar(attrs[|attrs| - 1])) ==> StarsCovered(cat, attrs, |attrs|, r.value)
    ensures r.Ok? && (attrs == [] || !BareStar(attrs[|attrs| - 1])) ==>
      OnlyListedColumns(cat, relations, schema, attrs, r.value)
  {
    if attrs != [] && BareStar(attrs[|attrs| - 1]) then
      assert ItemReadable(cat, attrs[|attrs| - 1]);
      SelectFrom(cat, relations, schema, attrs, |attrs|, [])
    else
      SelectFrom(cat, relations, schema, attrs, |attrs|, [])
  }

  /** A bare `*` as the first item walked selects the whole joined schema. */
  lemma StarSelectsAll(cat: Catalogue, relations: seq<string>, schema: Schema, attrs: seq<RelAttr>)
    requires SelectListReadable(cat, attrs) && RelationsKnown(cat, relations)
    requires attrs != [] && BareStar(attrs[|attrs| - 1])
    ensures SelectSchema(cat, relations, schema, attrs) == Ok(schema)
  {
    assert ItemReadable(cat, attrs[|attrs| - 1]);
  }

  /** A bare `*` anywhere else makes the select list fail. */
  lemma {:induction false} MisplacedStarFails(cat: Catalogue, relations: seq<string>, schema: Schema, attrs: seq<RelAttr>,
                                              i: nat, acc: Schema, k: nat)
    requires SelectListReadable(cat, attrs) && RelationsKnown(cat, relations)
    requires k < i <= |attrs| && k < |attrs| - 1 && BareStar(attrs[k])
    requires i < |attrs| || !BareStar(attrs[|attrs| - 1])
    ensures SelectFrom(cat, relations, schema, attrs, i, acc).Err?
    decreases i
  {
    assert ItemReadable(cat, attrs[i - 1]);
    var s := Visit(cat, relations, schema, attrs[i - 1], i == |attrs|, acc);
    if s.Continue? {
      MisplacedStarFails(cat, relations, schema, attrs, i - 1, s.acc, k);
    }
  }

  /** A member of `b` is a member of anything that `a + b` begins. */
  lemma InPiece(a: Schema, b: Schema, c: Schema, f: TupleField)
    requires a + b <= c && f in b
    ensures f in c
  {
    var j :| 0 <= j < |b| && b[j] == f;
    assert c[|a| + j] == (a + b)[|a| + j];
  }

  /** Extending an extension of `a` extends `a`. */
  lemma PrefixTransitive(a: Schema, b: Schema, c: Schema)
    requires a <= b && b <= c
    ensures a <= c
  {
    assert a == b[..|a|] && b == c[..|b|];
  }

  /** A column found in a prefix is found, at the same place, in the whole schema. */
  lemma IndexOfFieldPrefix(s: Schema, r: Schema, table: string, field: string)
    requires s <= r && IndexOfField(s, table, field) != -1
    ensures IndexOfField(r, table, field) == IndexOfField(s, table, field)
  {
    assert r == s + r[|s|..];
    IndexOfFieldAppend(s, r[|s|..], table, field);
  }

  /** The executor's `get_select_tuple_schema`: the same walk, as a loop. */
  method GetSelectTupleSchema(cat: Catalogue, relations: seq<string>, schema: Schema, attrs: seq<RelAttr>)
    returns (rc: Rc, select: Schema)
    requires SelectListReadable(cat, attrs) && RelationsKnown(cat, relations)
    ensures rc == Success <==> SelectFrom(cat, relations, schema, attrs, |attrs|, []).Ok?
    ensures rc == Success ==> select == SelectFrom(cat, relations, schema, attrs, |attrs|, []).value
    ensures rc != Success ==> rc == SelectFrom(cat, relations, schema, attrs, |attrs|, []).rc
  {
    select := [];
    var i := |attrs|;
    while i > 0
      invariant 0 <= i <= |attrs|
      invariant SelectFrom(cat, relations, schema, attrs, i, select) == SelectFrom(cat, relations, schema, attrs, |attrs|, [])
    {
      WalkUnfold(cat, relations, schema, attrs, i, select);
      var stop, next;
      stop, rc, next := VisitItem(cat, relations, schema, attrs[i - 1], i == |attrs|, select);
      if stop {
        return rc, next;
      }
      select := next;
      i := i - 1;
    }
    assert SelectFrom(cat, relations, schema, attrs, 0, select) == Ok(select);
    return Success, select;
  }

  /** The walk over `attrs[..i]` takes `attrs[i - 1]` first. */
  lemma WalkUnfold(cat: Catalogue, relations: seq<string>, schema: Schema, attrs: seq<RelAttr>, i: nat, acc: Schema)
    requires SelectListReadable(cat, attrs) && RelationsKnown(cat, relations) && 0 < i <= |attrs|
    ensures ItemReadable(cat, attrs[i - 1])
    ensures Visit(cat, relations, schema, attrs[i - 1], i == |attrs|, acc).Stop? ==>
      SelectFrom(cat, relations, schema, attrs, i, acc) == Visit(cat, relations, schema, attrs[i - 1], i == |attrs|, acc).result
    ensures Visit(cat, relations, schema, attrs[i - 1], i == |attrs|, acc).Continue? ==>
      SelectFrom(cat, relations, schema, attrs, i, acc) ==
      SelectFrom(cat, relations, schema, attrs, i - 1, Visit(cat, relations, schema, attrs[i - 1], i == |attrs|, acc).acc)
  {
    assert ItemReadable(cat, attrs[i - 1]);
  }

  /** One iteration of `get_select_tuple_schema`'s loop: the item extends the schema, or ends the walk. */
  method VisitItem(cat: Catalogue, relations: seq<string>, schema: Schema, a: RelAttr, first: bool, acc: Schema)
    returns (stop: bool, rc: Rc, select: Schema)
    requires ItemReadable(cat, a) && RelationsKnown(cat, relations)
    ensures !stop ==> Visit(cat, relations, schema, a, first, acc) == Continue(select)
    ensures stop && rc == Success ==> Visit(cat, relations, schema, a, first, acc) == Stop(Ok(select))
    ensures stop && rc != Success ==> Visit(cat, relations, schema, a, first, acc) == Stop(Err(rc))
  {
    select := acc;
    stop, rc := true, Success;
    var field := a.attribute.value;
    if field == "*" {
      if a.relation.None? {
        if !first {
          return true, SqlSyntax, select;
        }
        return true, Success, schema;
      }
      var t := a.relation.value;
      if t !in cat {
        return true, SchemaTableNotExist, select;
      }
      select := select + FromTable(t, cat[t]);
    } else {
      var table := a.relation;
      if table.None? {
        table := GetUniqueTableName(schema, relations, field);
        if table.None? {
          return true, SqlSyntax, select;
        }
      }
      ColumnTableKnown(cat, schema, relations, a);
      var t := table.value;
      var m := FindFieldMeta(cat[t], field);
      if m.None? {
        return true, SchemaFieldMissing, select;
      }
      select := AddIfNotExists(select, TupleField(m.value.ftype, t, m.value.name, None));
    }
    stop := false;
  }


  // ---------------------------------------------------------------------------
  // TupleProjcet

  /**
   * `p` is the position of the first column of `schema` with the table and
   * field name of `f`, or -1 when there is no such column.
   */
  predicate FirstNamed(schema: Schema, f: TupleField, p: int) {
    -1 <= p < |schema|
    && (p != -1 ==> Names(schema[p], f.table, f.field))
    && (forall k :: 0 <= k < |schema| && (p == -1 || k < p) ==> !Names(schema[k], f.table, f.field))
  }

  /**
   * The position of each selected column in the joined schema: the first
   * column with its table and field name, or -1 when the joined schema has
   * no such column.
   */
  function Positions(schema: Schema, select: Schema): (r: seq<int>)
    ensures |r| == |select|
    ensures forall j :: 0 <= j < |r| ==> r[j] == IndexOfField(schema, select[j].table, select[j].field)
    ensures forall j :: 0 <= j < |r| ==> FirstNamed(schema, select[j], r[j])
  {
    seq(|select|, j requires 0 <= j < |select| => IndexOfField(schema, select[j].table, select[j].field))
  }

  /** Every selected column is in the joined schema. */
  predicate AllFound(schema: Schema, select: Schema) {
    forall j :: 0 <= j < |select| ==> IndexOfField(schema, select[j].table, select[j].field) != -1
  }

  /** Every position is a position of `t`. */
  predicate InRange(t: Tuple, positions: seq<int>) {
    forall j :: 0 <= j < |positions| ==> 0 <= positions[j] < |t|
  }

  /** The values of `t` at the given positions, in order. */
  function Pick(t: Tuple, positions: seq<int>): (r: Tuple)
    requires InRange(t, positions)
    ensures |r| == |positions|
  {
    seq(|positions|, j requires 0 <= j < |positions| => t[positions[j]])
  }

  predicate AllInRange(ts: seq<Tuple>, positions: seq<int>) {
    forall k :: 0 <= k < |ts| ==> InRange(ts[k], positions)
  }

  /** Every tuple cut down to the given positions, in order. */
  function PickAll(ts: seq<Tuple>, positions: seq<int>): (r: seq<Tuple>)
    requires AllInRange(ts, positions)
    ensures |r| == |ts|
  {
    seq(|ts|, i requires 0 <= i < |ts| => Pick(ts[i], positions))
  }

  lemma AllInRangeSlice(ts: seq<Tuple>, lo: nat, hi: nat, positions: seq<int>)
    requires AllInRange(ts, positions) && lo <= hi <= |ts|
    ensures AllInRange(ts[lo..hi], positions)
  {
    forall k | 0 <= k < hi - lo ensures InRange(ts[lo..hi][k], positions) {
      assert ts[lo..hi][k] == ts[lo + k];
    }
  }

  lemma PickAllAppend(x: seq<Tuple>, y: seq<Tuple>, positions: seq<int>)
    requires AllInRange(x, positions) && AllInRange(y, positions)
    ensures AllInRange(x + y, positions)
    ensures PickAll(x + y, positions) == PickAll(x, positions) + PickAll(y, positions)
  {
    forall k | 0 <= k < |x + y| ensures InRange((x + y)[k], positions) {
      if k < |x| { assert (x + y)[k] == x[k]; } else { assert (x + y)[k] == y[k - |x|]; }
    }
  }

  /** Taking `a` out of both sides of a rearrangement leaves a rearrangement. */
  lemma RemoveOne(front: seq<Tuple>, a: Tuple, left: seq<Tuple>, right: seq<Tuple>, t: seq<Tuple>)
    requires t == left + [a] + right && multiset(front + [a]) == multiset(t)
    ensures multiset(front) == multiset(left + right)
  {
    var x, y := multiset(front), multiset(left + right);
    assert x + multiset{a} == y + multiset{a};
    forall e ensures x[e] == y[e] {
      assert (x + multiset{a})[e] == x[e] + multiset{a}[e];
      assert (y + multiset{a})[e] == y[e] + multiset{a}[e];
    }
  }

  /** Cutting tuples down commutes with rearranging them: rearranged inputs give rearranged outputs. */
  lemma {:induction false} PickAllPermutes(s: seq<Tuple>, t: seq<Tuple>, positions: seq<int>)
    requires multiset(s) == multiset(t)
    requires AllInRange(s, positions) && AllInRange(t, positions)
    ensures multiset(PickAll(s, positions)) == multiset(PickAll(t, positions))
    decreases |s|
  {
    if s == [] {
      assert |t| == |multiset(t)| == 0;
    } else {
      var n := |s| - 1;
      var a := s[n];
      var front := s[..n];
      assert s == front + [a];
      assert a in multiset(t) by {
        assert a in multiset(s);
      }
      var j :| 0 <= j < |t| && t[j] == a;
      var left, right := t[..j], t[j + 1..];
      assert t == left + [a] + right;
      RemoveOne(front, a, left, right, t);
      AllInRangeSlice(s, 0, n, positions);
      assert s[0..n] == front;
      AllInRangeSlice(t, 0, j, positions);
      assert t[0..j] == left;
      AllInRangeSlice(t, j + 1, |t|, positions);
      assert AllInRange([a], positions);
      PickAllAppend(left, right, positions);
      PickAllPermutes(front, left + right, positions);
      PickAllAppend(front, [a], positions);
      PickAllAppend(left, [a], positions);
      PickAllAppend(left + [a], right, positions);
    }
  }

  /**
   * A projected tuple holds, for each selected column, the joined tuple's
   * value in the first column of the joined schema with that table and name.
   */
  lemma PickSelects(schema: Schema, select: Schema, t: Tuple, j: nat)
    requires AllFound(schema, select) && |t| == |schema| && j < |select|
    ensures var p := Positions(schema, select)[j];
      Names(schema[p], select[j].table, select[j].field)
      && (forall k :: 0 <= k < p ==> !Names(schema[k], select[j].table, select[j].field))
      && Pick(t, Positions(schema, select))[j] == t[p]
  {
  }

  /** Maps a tuple of the joined schema to a tuple of the result schema. */
  class TupleProject {
    var positions: seq<int>

    constructor ()
      ensures positions == []
    {
      positions := [];
    }

    /**
     * Appends the position of each selected column; a column the joined
     * schema lacks stops it with SCHEMA_FIELD_MISSING, after the positions
     * of the columns before it.
     */
    method Init(schema: Schema, select: Schema) returns (rc: Rc)
      modifies this
      ensures rc == Success <==> AllFound(schema, select)
      ensures rc != Success ==> rc == SchemaFieldMissing
      ensures rc == Success ==> positions == old(positions) + Positions(schema, select)
      ensures rc != Success ==> (exists k :: 0 <= k < |select| && positions == old(positions) + Positions(schema, select[..k])
                                        && AllFound(schema, select[..k])
                                        && IndexOfField(schema, select[k].table, select[k].field) == -1)
    {
      var j := 0;
      while j < |select|
        invariant 0 <= j <= |select|
        invariant AllFound(schema, select[..j])
        invariant positions == old(positions) + Positions(schema, select[..j])
      {
        var pos := IndexOfField(schema, select[j].table, select[j].field);
        if pos == -1 {
          return SchemaFieldMissing;
        }
        assert select[..j + 1] == select[..j] + [select[j]];
        positions := positions + [pos];
        j := j + 1;
      }
      assert select[..j] == select;
      return Success;
    }

    /** The tuple cut down to the selected columns. */
    method Project(t: Tuple) returns (r: Tuple)
      requires InRange(t, positions)
      ensures r == Pick(t, positions)
    {
      r := [];
      var j := 0;
      while j < |positions|
        invariant 0 <= j <= |positions|
        invariant r == Pick(t, positions[..j])
      {
        r := r + [t[positions[j]]];
        j := j + 1;
      }
      assert positions[..j] == positions;
    }
  }

  /**
   * The result of a projection: the select list's schema and every joined
   * tuple cut down to it, in order.
   */
  function ProjectSpec(cat: Catalogue, relations: seq<string>, schema: Schema, attrs: seq<RelAttr>, tuples: seq<Tuple>)
    : (r: Result<TupleSet>)
    requires SelectListReadable(cat, attrs) && RelationsKnown(cat, relations) && Widths(tuples, |schema|)
    ensures r.Err? ==> r.rc != Success
    ensures r.Ok? ==> |r.value.tuples| == |tuples| && Widths(r.value.tuples, |r.value.schema|)
  {
    match SelectSchema(cat, relations, schema, attrs)
    case Err(e) => Err(e)
    case Ok(select) =>
      if !AllFound(schema, select) then Err(SchemaFieldMissing)
      else
        var ps := Positions(schema, select);
        assert AllInRange(tuples, ps);
        Ok(TupleSet(select, PickAll(tuples, ps)))
  }

  /** The executor's `project`. */
  method Project(cat: Catalogue, relations: seq<string>, schema: Schema, attrs: seq<RelAttr>, tuples: seq<Tuple>)
    returns (rc: Rc, result: TupleSet)
    requires SelectListReadable(cat, attrs) && RelationsKnown(cat, relations) && Widths(tuples, |schema|)
    ensures rc == Success <==> ProjectSpec(cat, relations, schema, attrs, tuples).Ok?
    ensures rc == Success ==> result == ProjectSpec(cat, relations, schema, attrs, tuples).value
    ensures rc != Success ==> rc == ProjectSpec(cat, relations, schema, attrs, tuples).rc
  {
    var select;
    rc, select := GetSelectTupleSchema(cat, relations, schema, attrs);
    result := TupleSet([], []);
    if rc != Success {
      return;
    }
    var tp := new TupleProject();
    rc := tp.Init(schema, select);
    if rc != Success {
      return;
    }
    var ps := Positions(schema, select);
    assert tp.positions == ps;
    var out: seq<Tuple> := [];
    var i := 0;
    while i < |tuples|
      invariant 0 <= i <= |tuples|
      invariant tp.positions == ps
      invariant out == PickAll(tuples[..i], ps)
    {
      assert InRange(tuples[i], ps);
      var r := tp.Project(tuples[i]);
      assert tuples[..i + 1] == tuples[..i] + [tuples[i]];
      PickAllAppend(tuples[..i], [tuples[i]], ps);
      out := out + [r];
      i := i + 1;
    }
    assert tuples[..i] == tuples;
    result := TupleSet(select, out);
  }
}
