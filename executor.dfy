/*
 * The SELECT pipeline (`SelectExecutor::execute(TupleSet &)` in
 * sql/executor/select_executor.cpp): scan and join the tables with the
 * conditions, sort the joined tuples when the query orders them, then either
 * project them onto the select list or aggregate them into one tuple.
 */
module Executor {
  import opened Common
  import opened Schemas
  import opened TupleFilters
  import opened Planner
  import opened Join
  import opened Ordering
  import opened Projection
  import opened Aggregation

  /**
   * What the query must satisfy for the pipeline not to crash: the join's
   * conditions are well formed, every scan returns tuples of its table's
   * width, every aggregate has its column, and a plain select list is
   * readable.
   */
  ghost predicate Executable(cat: Catalogue, sel: Selects, scan: Scan) {
    JoinConditions(sel.conditions) && ScanFits(cat, scan)
    && |sel.aggregates| <= |sel.attributes|
    && (sel.aggregates == [] ==> SelectListReadable(cat, sel.attributes))
  }

  /** The joined tuples as the query orders them: sorted when it has ORDER BY items, else as joined. */
  function Ordered(schema: Schema, relations: seq<string>, orders: seq<OrderBy>, cmp: Comparator, tuples: seq<Tuple>)
    : (r: Result<seq<Tuple>>)
    requires Widths(tuples, |schema|)
    ensures r.Err? ==> r.rc == SqlSyntax
    ensures r.Ok? ==> Widths(r.value, |schema|) && multiset(r.value) == multiset(tuples)
  {
    if orders == [] then Ok(tuples)
    else
      match OrderKeys(schema, relations, orders)
      case Err(e) => Err(e)
      case Ok(keys) =>
        SortPermutes(keys, cmp, tuples);
        SortWidths(keys, cmp, tuples, |schema|);
        Ok(InsertionSorted(keys, cmp, tuples))
  }

  /** The result set of a SELECT. */
  function ExecuteSpec(cat: Catalogue, sel: Selects, scan: Scan, cmp: Comparator): (r: Result<TupleSet>)
    requires Executable(cat, sel, scan)
    ensures r.Err? ==> r.rc != Success
  {
    match FilterTuples(cat, sel, scan, cmp)
    case Err(e) => Err(e)
    case Ok(joined) =>
      FilterTuplesSchema(cat, sel, scan, cmp);
      match Ordered(joined.0, sel.relations, sel.orders, cmp, joined.1)
      case Err(e) => Err(e)
      case Ok(tuples) =>
        if sel.aggregates == [] then ProjectSpec(cat, sel.relations, joined.0, sel.attributes, tuples)
        else AggregateSpec(joined.0, sel.relations, tuples, sel.aggregates, sel.attributes)
  }

  /** A query without aggregates has one result row per joined tuple. */
  lemma ProjectionRows(cat: Catalogue, sel: Selects, scan: Scan, cmp: Comparator)
    requires Executable(cat, sel, scan) && sel.aggregates == []
    requires ExecuteSpec(cat, sel, scan, cmp).Ok?
    ensures FilterTuples(cat, sel, scan, cmp).Ok?
    ensures |ExecuteSpec(cat, sel, scan, cmp).value.tuples| == |FilterTuples(cat, sel, scan, cmp).value.1|
  {
  }

  /** A query with aggregates has exactly one result row, as wide as its schema. */
  lemma AggregationRow(cat: Catalogue, sel: Selects, scan: Scan, cmp: Comparator)
    requires Executable(cat, sel, scan) && sel.aggregates != []
    requires ExecuteSpec(cat, sel, scan, cmp).Ok?
    ensures |ExecuteSpec(cat, sel, scan, cmp).value.tuples| == 1
    ensures |ExecuteSpec(cat, sel, scan, cmp).value.tuples[0]| == |ExecuteSpec(cat, sel, scan, cmp).value.schema|
  {
  }

  /**
   * ORDER BY only rearranges the rows of a query without aggregates: the
   * same query without it yields the same schema and the same rows, as often.
   */
  lemma OrderOnlyRearranges(cat: Catalogue, sel: Selects, scan: Scan, cmp: Comparator)
    requires Executable(cat, sel, scan) && sel.aggregates == []
    requires ExecuteSpec(cat, sel, scan, cmp).Ok?
    ensures var plain := ExecuteSpec(cat, sel.(orders := []), scan, cmp);
      plain.Ok?
      && plain.value.schema == ExecuteSpec(cat, sel, scan, cmp).value.schema
      && multiset(plain.value.tuples) == multiset(ExecuteSpec(cat, sel, scan, cmp).value.tuples)
  {
    var unordered := sel.(orders := []);
    assert FilterTuples(cat, unordered, scan, cmp) == FilterTuples(cat, sel, scan, cmp);
    var joined := FilterTuples(cat, sel, scan, cmp).value;
    FilterTuplesSchema(cat, sel, scan, cmp);
    var sorted := Ordered(joined.0, sel.relations, sel.orders, cmp, joined.1).value;
    var select := SelectSchema(cat, sel.relations, joined.0, sel.attributes).value;
    var ps := Positions(joined.0, select);
    assert AllInRange(sorted, ps) && AllInRange(joined.1, ps);
    PickAllPermutes(sorted, joined.1, ps);
  }

  /** A query whose scans or join fail fails with the same code. */
  lemma JoinErrorStops(cat: Catalogue, sel: Selects, scan: Scan, cmp: Comparator)
    requires Executable(cat, sel, scan) && FilterTuples(cat, sel, scan, cmp).Err?
    ensures ExecuteSpec(cat, sel, scan, cmp) == Err(FilterTuples(cat, sel, scan, cmp).rc)
  {
  }

  /** The ORDER BY step: the joined tuples copied into an array and sorted there. */
  method OrderStep(schema: Schema, relations: seq<string>, orders: seq<OrderBy>, cmp: Comparator, tuples: seq<Tuple>)
    returns (rc: Rc, sorted: seq<Tuple>)
    requires Widths(tuples, |schema|)
    ensures rc == Success <==> Ordered(schema, relations, orders, cmp, tuples).Ok?
    ensures rc == Success ==> sorted == Ordered(schema, relations, orders, cmp, tuples).value
    ensures rc != Success ==> rc == SqlSyntax
  {
    sorted := tuples;
    rc := Success;
    if |orders| > 0 {
      var a := new Tuple[|tuples|](i requires 0 <= i < |tuples| => tuples[i]);
      assert a[..] == tuples;
      rc := OrderTuples(schema, relations, orders, cmp, a);
      if rc == Success {
        sorted := a[..];
      }
    }
  }

  /** The executor's `execute`: filter, order, then project or aggregate. */
  method Execute(cat: Catalogue, sel: Selects, scan: Scan, cmp: Comparator) returns (rc: Rc, result: TupleSet)
    requires Executable(cat, sel, scan)
    ensures rc == Success <==> ExecuteSpec(cat, sel, scan, cmp).Ok?
    ensures rc == Success ==> result == ExecuteSpec(cat, sel, scan, cmp).value
    ensures rc != Success ==> rc == ExecuteSpec(cat, sel, scan, cmp).rc
  {
    result := TupleSet([], []);
    var schema, tuples;
    rc, schema, tuples := SelectFilterTuples(cat, sel, scan, cmp);
    if rc != Success {
      return;
    }
    FilterTuplesSchema(cat, sel, scan, cmp);
    rc, tuples := OrderStep(schema, sel.relations, sel.orders, cmp, tuples);
    if rc != Success {
      return;
    }
    if |sel.aggregates| == 0 {
      rc, result := Projection.Project(cat, sel.relations, schema, sel.attributes, tuples);
    } else {
      rc, result := Aggregate(schema, sel.relations, tuples, sel.aggregates, sel.attributes);
    }
  }
}
