/*
 * Building one scan per relation (sql/executor/select_executor.cpp,
 * `create_select_exe_node` and `select_all_table_tuple_sets`).
 *
 * Each relation gets the conditions that concern it alone, bound to its
 * columns; its scan then yields the tuples of its records that pass them.
 * The storage scan itself is not part of this model: it is the parameter
 * `scan`, from a table and its bound filters to the tuples it produces.
 */
module Planner {
  import opened Common
  import opened Schemas
  import opened ConditionFilters
  import opened NameResolution

  /**
   * The push-down rule: a condition between two literals goes to every
   * table; one with a single column side goes to the table that side
   * matches; a column-vs-column one only when both sides match it.
   */
  function PushedDown(relations: seq<string>, c: Condition, table: string): (r: bool)
    ensures r <==> ((c.lhs.AttrOperand? ==> MatchTable(relations, c.lhs.relation, table))
                    && (c.rhs.AttrOperand? ==> MatchTable(relations, c.rhs.relation, table)))
  {
    (c.lhs.ValueOperand? && c.rhs.ValueOperand?)
    || (c.lhs.AttrOperand? && c.rhs.ValueOperand? && MatchTable(relations, c.lhs.relation, table))
    || (c.lhs.ValueOperand? && c.rhs.AttrOperand? && MatchTable(relations, c.rhs.relation, table))
    || (c.lhs.AttrOperand? && c.rhs.AttrOperand?
        && MatchTable(relations, c.lhs.relation, table) && MatchTable(relations, c.rhs.relation, table))
  }

  /** The conditions pushed down to `table`, in their order in the query. */
  function Pushed(relations: seq<string>, conds: seq<Condition>, table: string): (r: seq<Condition>)
    ensures |r| <= |conds|
  {
    if conds == [] then []
    else
      var n := |conds| - 1;
      var p := Pushed(relations, conds[..n], table);
      if PushedDown(relations, conds[n], table) then p + [conds[n]] else p
  }

  /** Exactly the conditions the push-down rule selects for `table` are pushed to it. */
  lemma {:induction false} PushedMembers(relations: seq<string>, conds: seq<Condition>, table: string)
    ensures forall c :: c in Pushed(relations, conds, table) <==> c in conds && PushedDown(relations, c, table)
  {
    if conds != [] {
      var n := |conds| - 1;
      PushedMembers(relations, conds[..n], table);
      assert forall c :: c in conds <==> c in conds[..n] || c == conds[n];
    }
  }

  /** What is pushed down from a prefix of the conditions is a prefix of what is pushed down from all of them. */
  lemma {:induction false} PushedPrefix(relations: seq<string>, conds: seq<Condition>, table: string, i: nat)
    requires i <= |conds|
    ensures Pushed(relations, conds[..i], table) <= Pushed(relations, conds, table)
    decreases |conds| - i
  {
    if i < |conds| {
      assert conds[..i + 1][..i] == conds[..i];
      PushedPrefix(relations, conds, table, i + 1);
    } else {
      assert conds[..i] == conds;
    }
  }

  /**
   * A column side that names its table is pushed only to that table, and a
   * column-vs-column condition over two different named tables is pushed to
   * none: it is left to the join.
   */
  lemma PushedDownNamedTables(relations: seq<string>, conds: seq<Condition>, table: string, c: Condition)
    requires c in conds
    ensures c.lhs.AttrOperand? && c.lhs.relation.Some? && c.lhs.relation.value != table ==>
      c !in Pushed(relations, conds, table)
    ensures c.rhs.AttrOperand? && c.rhs.relation.Some? && c.rhs.relation.value != table ==>
      c !in Pushed(relations, conds, table)
    ensures c.lhs.ValueOperand? && c.rhs.ValueOperand? ==> c in Pushed(relations, conds, table)
  {
    PushedMembers(relations, conds, table);
  }

  /** With a single relation, every condition that names no other table is pushed down to it. */
  lemma PushedDownSingleRelation(table: string, conds: seq<Condition>, c: Condition)
    requires c in conds
    requires c.lhs.AttrOperand? ==> c.lhs.relation in {None, Some(table)}
    requires c.rhs.AttrOperand? ==> c.rhs.relation in {None, Some(table)}
    ensures c in Pushed([table], conds, table)
  {
    PushedMembers([table], conds, table);
  }

  // ---------------------------------------------------------------------------
  // Scan nodes

  /** A scan of one table with its pushed-down filters. */
  datatype ExeNode = ExeNode(table: string, schema: Schema, filters: seq<DefaultConditionFilter>)

  /** What a scan node stands for, without the filter objects. */
  datatype NodeView = NodeView(table: string, schema: Schema, bindings: seq<Binding>)

  /** The bindings the filters hold. */
  function States(fs: seq<DefaultConditionFilter>): (r: seq<Binding>)
    reads fs
    ensures |r| == |fs| && forall k :: 0 <= k < |fs| ==> r[k] == fs[k].State()
  {
    seq(|fs|, k requires 0 <= k < |fs| reads fs => fs[k].State())
  }

  /** The scan node for `table`: an unknown table, or the first condition that fails to bind, is an error. */
  function NodeSpec(cat: Catalogue, relations: seq<string>, conds: seq<Condition>, table: string): (r: Result<NodeView>)
    ensures r.Ok? <==> table in cat && BindAll(cat[table], Pushed(relations, conds, table)).Ok?
    ensures r.Ok? ==> (r.value.table == table && r.value.schema == FromTable(table, cat[table])
      && r.value.bindings == BindAll(cat[table], Pushed(relations, conds, table)).value)
    ensures table !in cat ==> r == Err(SchemaTableNotExist)
    ensures r.Err? ==> r.rc != Success
  {
    if table !in cat then Err(SchemaTableNotExist)
    else
      match BindAll(cat[table], Pushed(relations, conds, table))
      case Err(e) => Err(e)
      case Ok(bs) => Ok(NodeView(table, FromTable(table, cat[table]), bs))
  }

  /** A new filter bound to one pushed-down condition. */
  method NewFilter(metas: seq<FieldMeta>, c: Condition) returns (rc: Rc, f: DefaultConditionFilter)
    ensures fresh(f)
    ensures Bind(metas, c).Ok? ==> rc == Success && f.State() == Bind(metas, c).value
    ensures Bind(metas, c).Err? ==> rc == Bind(metas, c).rc
  {
    f := new DefaultConditionFilter();
    rc := f.Init(metas, c);
  }

  /** Creates the scan node of one table: its schema and one bound filter per pushed-down condition. */
  method CreateSelectExeNode(cat: Catalogue, relations: seq<string>, conds: seq<Condition>, table: string)
    returns (rc: Rc, node: ExeNode)
    ensures NodeSpec(cat, relations, conds, table).Err? ==> rc == NodeSpec(cat, relations, conds, table).rc
    ensures NodeSpec(cat, relations, conds, table).Ok? ==>
      rc == Success && node.table == table && node.schema == NodeSpec(cat, relations, conds, table).value.schema
      && (forall k :: 0 <= k < |node.filters| ==> fresh(node.filters[k]))
      && States(node.filters) == NodeSpec(cat, relations, conds, table).value.bindings
  {
    node := ExeNode(table, [], []);
    if table !in cat {
      return SchemaTableNotExist, node;
    }
    PushedBindingsAgree(cat[table], relations, conds, table);
    var filters;
    rc, filters := PushDownFilters(cat[table], relations, conds, table);
    if rc == Success {
      node := ExeNode(table, FromTable(table, cat[table]), filters);
    }
  }

  /**
   * The bindings of the conditions pushed down to `table`, built in one pass
   * over the conditions as `create_select_exe_node` builds its filters; it
   * agrees with binding `Pushed` (lemma `PushedBindingsAgree`).
   */
  function PushedBindings(metas: seq<FieldMeta>, relations: seq<string>, conds: seq<Condition>, table: string)
    : (r: Result<seq<Binding>>)
    ensures r.Err? ==> r.rc in {SchemaFieldMissing, SchemaFieldTypeMismatch, InvalidArgument}
  {
    if conds == [] then Ok([])
    else
      var n := |conds| - 1;
      match PushedBindings(metas, relations, conds[..n], table)
      case Err(e) => Err(e)
      case Ok(bs) =>
        if !PushedDown(relations, conds[n], table) then Ok(bs)
        else
          match Bind(metas, conds[n])
          case Err(e) => Err(e)
          case Ok(b) => Ok(bs + [b])
  }

  /** Binding while selecting is binding what is selected. */
  lemma {:induction false} PushedBindingsAgree(metas: seq<FieldMeta>, relations: seq<string>, conds: seq<Condition>,
                                               table: string)
    ensures PushedBindings(metas, relations, conds, table) == BindAll(metas, Pushed(relations, conds, table))
  {
    if conds != [] {
      var n := |conds| - 1;
      PushedBindingsAgree(metas, relations, conds[..n], table);
      var p := Pushed(relations, conds[..n], table);
      if PushedDown(relations, conds[n], table) {
        assert Pushed(relations, conds, table) == p + [conds[n]];
        match BindAll(metas, p) {
          case Ok(bs) =>
            BindAllSnoc(metas, p, conds[n], bs);
          case Err(_) =>
            assert (p + [conds[n]])[..|p|] == p;
        }
      }
    }
  }

  /** Once a prefix of the conditions fails to bind, the whole push-down fails with that code. */
  lemma {:induction false} PushedBindingsKeepsError(metas: seq<FieldMeta>, relations: seq<string>,
                                                    conds: seq<Condition>, table: string, i: nat)
    requires i <= |conds| && PushedBindings(metas, relations, conds[..i], table).Err?
    ensures PushedBindings(metas, relations, conds, table) == PushedBindings(metas, relations, conds[..i], table)
    decreases |conds| - i
  {
    if i < |conds| {
      assert conds[..i + 1][..i] == conds[..i];
      PushedBindingsKeepsError(metas, relations, conds, table, i + 1);
    } else {
      assert conds[..i] == conds;
    }
  }

  /** The loop of `create_select_exe_node`: a bound filter per condition pushed down to `table`. */
  method PushDownFilters(metas: seq<FieldMeta>, relations: seq<string>, conds: seq<Condition>, table: string)
    returns (rc: Rc, filters: seq<DefaultConditionFilter>)
    ensures PushedBindings(metas, relations, conds, table).Err? ==>
      rc == PushedBindings(metas, relations, conds, table).rc
    ensures PushedBindings(metas, relations, conds, table).Ok? ==>
      rc == Success && (forall k :: 0 <= k < |filters| ==> fresh(filters[k]))
      && States(filters) == PushedBindings(metas, relations, conds, table).value
  {
    filters := [];
    ghost var bs: seq<Binding> := [];
    var i := 0;
    while i < |conds|
      invariant 0 <= i <= |conds|
      invariant PushedBindings(metas, relations, conds[..i], table) == Ok(bs)
      invariant |filters| == |bs|
      invariant forall j :: 0 <= j < |filters| ==> fresh(filters[j]) && filters[j].State() == bs[j]
    {
      var f;
      rc, f := PushStep(metas, relations, conds, table, i, bs);
      if rc != Success {
        PushedBindingsKeepsError(metas, relations, conds, table, i + 1);
        return;
      }
      assert PushedBindings(metas, relations, conds[..i + 1], table).Ok?;
      if f.Some? {
        filters := filters + [f.value];
        bs := bs + [f.value.State()];
      }
      assert PushedBindings(metas, relations, conds[..i + 1], table).value == bs;
      i := i + 1;
    }
    assert conds[..i] == conds;
    return Success, filters;
  }

  /** The loop's body for `conds[i]`: a new bound filter when the condition is pushed down to `table`. */
  method PushStep(metas: seq<FieldMeta>, relations: seq<string>, conds: seq<Condition>, table: string, i: nat,
                  ghost bs: seq<Binding>)
    returns (rc: Rc, f: Option<DefaultConditionFilter>)
    requires i < |conds| && PushedBindings(metas, relations, conds[..i], table) == Ok(bs)
    ensures f.Some? ==> fresh(f.value)
    ensures PushedBindings(metas, relations, conds[..i + 1], table).Err? ==>
      rc == PushedBindings(metas, relations, conds[..i + 1], table).rc
    ensures PushedBindings(metas, relations, conds[..i + 1], table).Ok? ==>
      rc == Success
      && PushedBindings(metas, relations, conds[..i + 1], table).value == bs + (if f.Some? then [f.value.State()] else [])
  {
    assert conds[..i + 1][..i] == conds[..i];
    var c := conds[i];
    f := None;
    rc := Success;
    if PushedDown(relations, c, table) {
      var filter;
      rc, filter := NewFilter(metas, c);
      f := Some(filter);
    }
  }

  // ---------------------------------------------------------------------------
  // All scans

  /** The scan nodes of `tables`, in that order; the first failing table stops the planning. */
  function PlanNodes(cat: Catalogue, relations: seq<string>, conds: seq<Condition>, tables: seq<string>): (r: Result<seq<NodeView>>)
    ensures r.Ok? ==> |r.value| == |tables|
    ensures r.Err? ==> r.rc != Success
  {
    if tables == [] then Ok([])
    else
      var n := |tables| - 1;
      match PlanNodes(cat, relations, conds, tables[..n])
      case Err(e) => Err(e)
      case Ok(vs) =>
        match NodeSpec(cat, relations, conds, tables[n])
        case Err(e) => Err(e)
        case Ok(v) => Ok(vs + [v])
  }

  /** Each planned node is the node of its table. */
  lemma {:induction false} PlanNodesAt(cat: Catalogue, relations: seq<string>, conds: seq<Condition>,
                                       tables: seq<string>, k: nat)
    requires PlanNodes(cat, relations, conds, tables).Ok? && k < |tables|
    ensures NodeSpec(cat, relations, conds, tables[k]) == Ok(PlanNodes(cat, relations, conds, tables).value[k])
    decreases |tables|
  {
    var n := |tables| - 1;
    var prefix := PlanNodes(cat, relations, conds, tables[..n]);
    var last := NodeSpec(cat, relations, conds, tables[n]);
    assert prefix.Ok? && last.Ok?;
    assert PlanNodes(cat, relations, conds, tables).value == prefix.value + [last.value];
    if k < n {
      PlanNodesAt(cat, relations, conds, tables[..n], k);
      assert tables[..n][k] == tables[k];
    }
  }

  /** Planning fails exactly when the node of some table fails. */
  lemma {:induction false} PlanNodesFail(cat: Catalogue, relations: seq<string>, conds: seq<Condition>,
                                         tables: seq<string>)
    ensures PlanNodes(cat, relations, conds, tables).Err? <==>
      exists k :: 0 <= k < |tables| && NodeSpec(cat, relations, conds, tables[k]).Err?
    decreases |tables|
  {
    if tables != [] {
      var n := |tables| - 1;
      PlanNodesFail(cat, relations, conds, tables[..n]);
      if PlanNodes(cat, relations, conds, tables[..n]).Err? {
        var k :| 0 <= k < n && NodeSpec(cat, relations, conds, tables[..n][k]).Err?;
        assert tables[..n][k] == tables[k];
        assert PlanNodes(cat, relations, conds, tables).Err?;
      } else {
        forall k | 0 <= k < n ensures NodeSpec(cat, relations, conds, tables[k]).Ok? {
          assert tables[..n][k] == tables[k];
        }
        if NodeSpec(cat, relations, conds, tables[n]).Err? {
          assert PlanNodes(cat, relations, conds, tables).Err?;
        } else {
          assert PlanNodes(cat, relations, conds, tables).Ok?;
        }
      }
    }
  }

  /** The tables' tuple sets: each node's schema with what its scan yields. */
  type Scan = (string, seq<Binding>) -> seq<Tuple>

  function ScanAll(views: seq<NodeView>, scan: Scan): (r: seq<TupleSet>)
    ensures |r| == |views|
    ensures forall k :: 0 <= k < |views| ==>
      r[k] == TupleSet(views[k].schema, scan(views[k].table, views[k].bindings))
  {
    seq(|views|, k requires 0 <= k < |views| => TupleSet(views[k].schema, scan(views[k].table, views[k].bindings)))
  }

  /**
   * One tuple set per relation, from the last relation of the parsed list to
   * the first (the parser stores them reversed); no relation at all is a
   * syntax error.
   */
  function AllTupleSets(cat: Catalogue, sel: Selects, scan: Scan): (r: Result<seq<TupleSet>>)
    ensures r.Err? ==> r.rc != Success
    ensures sel.relations == [] ==> r == Err(SqlSyntax)
    ensures (exists t :: t in sel.relations && t !in cat) ==> r.Err?
    ensures r.Ok? ==> |r.value| == |sel.relations| && forall k :: 0 <= k < |sel.relations| ==>
      ScannedAs(cat, sel, scan, sel.relations[|sel.relations| - 1 - k], r.value[k])
  {
    var order := Reversed(sel.relations);
    PlanNodesFail(cat, sel.relations, sel.conditions, order);
    assert (exists t :: t in sel.relations && t !in cat) ==>
      exists k :: 0 <= k < |order| && NodeSpec(cat, sel.relations, sel.conditions, order[k]).Err? by {
      if exists t :: t in sel.relations && t !in cat {
        var t :| t in sel.relations && t !in cat;
        var i :| 0 <= i < |sel.relations| && sel.relations[i] == t;
        assert order[|sel.relations| - 1 - i] == t;
      }
    }
    match PlanNodes(cat, sel.relations, sel.conditions, order)
    case Err(e) => Err(e)
    case Ok(vs) =>
      if vs == [] then Err(SqlSyntax)
      else
        ScanAllReversed(cat, sel, scan, vs);
        Ok(ScanAll(vs, scan))
  }

  /** `s` is what scanning table `t` with its pushed-down conditions yields. */
  predicate ScannedAs(cat: Catalogue, sel: Selects, scan: Scan, t: string, s: TupleSet) {
    t in cat && s.schema == FromTable(t, cat[t])
    && BindAll(cat[t], Pushed(sel.relations, sel.conditions, t)).Ok?
    && s.tuples == scan(t, BindAll(cat[t], Pushed(sel.relations, sel.conditions, t)).value)
  }

  /** The planned nodes of the reversed relations, scanned: the facts `AllTupleSets` promises. */
  lemma ScanAllReversed(cat: Catalogue, sel: Selects, scan: Scan, vs: seq<NodeView>)
    requires PlanNodes(cat, sel.relations, sel.conditions, Reversed(sel.relations)) == Ok(vs)
    ensures |ScanAll(vs, scan)| == |sel.relations|
    ensures forall k :: 0 <= k < |sel.relations| ==>
      ScannedAs(cat, sel, scan, sel.relations[|sel.relations| - 1 - k], ScanAll(vs, scan)[k])
  {
    var order := Reversed(sel.relations);
    var r := ScanAll(vs, scan);
    forall k | 0 <= k < |sel.relations|
      ensures ScannedAs(cat, sel, scan, sel.relations[|sel.relations| - 1 - k], r[k])
    {
      var t := sel.relations[|sel.relations| - 1 - k];
      assert order[k] == t;
      PlanNodesAt(cat, sel.relations, sel.conditions, order, k);
      assert NodeSpec(cat, sel.relations, sel.conditions, t) == Ok(vs[k]);
      assert r[k] == TupleSet(vs[k].schema, scan(vs[k].table, vs[k].bindings));
    }
  }

  /**
   * Plans every relation's scan, from the last relation of the parsed list
   * to the first, then runs the scans in the same order. A node's filters
   * are read when it is made; nothing changes them afterwards.
   */
  method SelectAllTableTupleSets(cat: Catalogue, sel: Selects, scan: Scan) returns (rc: Rc, sets: seq<TupleSet>)
    ensures rc == Success <==> AllTupleSets(cat, sel, scan).Ok?
    ensures rc == Success ==> sets == AllTupleSets(cat, sel, scan).value
    ensures rc != Success ==> rc == AllTupleSets(cat, sel, scan).rc
  {
    var nodes;
    rc, nodes := PlanAll(cat, sel.relations, sel.conditions);
    if rc != Success {
      return rc, [];
    }
    if nodes == [] {
      return SqlSyntax, [];
    }
    sets := RunScans(nodes, scan);
    rc := Success;
  }

  /** The planning loop: one scan node per relation, from the last relation to the first. */
  method PlanAll(cat: Catalogue, relations: seq<string>, conds: seq<Condition>) returns (rc: Rc, nodes: seq<NodeView>)
    ensures rc == Success <==> PlanNodes(cat, relations, conds, Reversed(relations)).Ok?
    ensures rc == Success ==> nodes == PlanNodes(cat, relations, conds, Reversed(relations)).value
    ensures rc != Success ==> rc == PlanNodes(cat, relations, conds, Reversed(relations)).rc
  {
    ghost var order := Reversed(relations);
    nodes := [];
    var i := |relations|;
    while i > 0
      invariant 0 <= i <= |relations|
      invariant PlanNodes(cat, relations, conds, order[..|relations| - i]) == Ok(nodes)
    {
      var node;
      rc, node := PlanStep(cat, relations, conds, i - 1, nodes);
      if rc != Success {
        return rc, [];
      }
      nodes := nodes + [node];
      i := i - 1;
    }
    assert order[..|relations|] == order;
    rc := Success;
  }

  /** The loop's body for `relations[i]`: its node extends the plan of the relations after it. */
  method PlanStep(cat: Catalogue, relations: seq<string>, conds: seq<Condition>, i: nat, ghost nodes: seq<NodeView>)
    returns (rc: Rc, node: NodeView)
    requires i < |relations|
    requires PlanNodes(cat, relations, conds, Reversed(relations)[..|relations| - 1 - i]) == Ok(nodes)
    ensures rc == Success ==> PlanNodes(cat, relations, conds, Reversed(relations)[..|relations| - i]) == Ok(nodes + [node])
    ensures rc != Success ==> PlanNodes(cat, relations, conds, Reversed(relations)) == Err(rc)
  {
    ghost var order := Reversed(relations);
    ghost var m := |relations| - 1 - i;
    assert order[m] == relations[i];
    PlanNodesNext(cat, relations, conds, order, m, nodes);
    rc, node := PlanNode(cat, relations, conds, relations[i]);
    if rc != Success {
      PlanNodesKeepsError(cat, relations, conds, order, m + 1);
    }
  }

  /** Planning one more table appends its node to the nodes planned so far, or fails with its error. */
  lemma PlanNodesNext(cat: Catalogue, relations: seq<string>, conds: seq<Condition>, tables: seq<string>,
                      k: nat, nodes: seq<NodeView>)
    requires k < |tables| && PlanNodes(cat, relations, conds, tables[..k]) == Ok(nodes)
    ensures PlanNodes(cat, relations, conds, tables[..k + 1]) ==
      match NodeSpec(cat, relations, conds, tables[k])
      case Err(e) => Err(e)
      case Ok(v) => Ok(nodes + [v])
  {
    assert tables[..k + 1][..k] == tables[..k];
    assert tables[..k + 1][k] == tables[k];
  }

  /** A scan node, seen through the bindings its filters hold. */
  method PlanNode(cat: Catalogue, relations: seq<string>, conds: seq<Condition>, table: string)
    returns (rc: Rc, view: NodeView)
    ensures rc == Success <==> NodeSpec(cat, relations, conds, table).Ok?
    ensures rc == Success ==> view == NodeSpec(cat, relations, conds, table).value
    ensures rc != Success ==> rc == NodeSpec(cat, relations, conds, table).rc
  {
    var node;
    rc, node := CreateSelectExeNode(cat, relations, conds, table);
    view := NodeView(node.table, node.schema, States(node.filters));
  }

  /** Runs each planned scan, in order. */
  method RunScans(nodes: seq<NodeView>, scan: Scan) returns (sets: seq<TupleSet>)
    ensures sets == ScanAll(nodes, scan)
  {
    sets := [];
    var k := 0;
    while k < |nodes|
      invariant 0 <= k <= |nodes|
      invariant sets == ScanAll(nodes[..k], scan)
    {
      assert nodes[..k + 1][..k] == nodes[..k];
      sets := sets + [TupleSet(nodes[k].schema, scan(nodes[k].table, nodes[k].bindings))];
      k := k + 1;
    }
    assert nodes[..k] == nodes;
  }

  /** Once a prefix of the tables fails to plan, so do all of them, with the same code. */
  lemma {:induction false} PlanNodesKeepsError(cat: Catalogue, relations: seq<string>, conds: seq<Condition>,
                                               tables: seq<string>, k: nat)
    requires k <= |tables| && PlanNodes(cat, relations, conds, tables[..k]).Err?
    ensures PlanNodes(cat, relations, conds, tables) == PlanNodes(cat, relations, conds, tables[..k])
    decreases |tables| - k
  {
    if k < |tables| {
      assert tables[..k + 1][..k] == tables[..k];
      PlanNodesKeepsError(cat, relations, conds, tables, k + 1);
    } else {
      assert tables[..k] == tables;
    }
  }
}
