/*
 * Join assembly (`select_filter_tuples` in sql/executor/select_executor.cpp).
 *
 * Starting from one empty tuple, each table's tuple set is joined on the
 * right: every running tuple is concatenated with every tuple of the set
 * that the join filter accepts, left-major. `Row`, `Product` and `JoinSpec`
 * state the result; the methods keep the source's nested loops.
 */
module Join {
  import opened Common
  import opened Schemas
  import opened ConditionFilters
  import opened TupleFilters
  import opened Planner

  /** Bound join conditions that can be evaluated on tuples of widths `lw` and `rw`. */
  predicate ConsValid(cons: seq<TupleCons>, lw: nat, rw: nat) {
    forall k :: 0 <= k < |cons| ==>
      cons[k].condition.op.IsOrdinary() && cons[k].leftPos < lw && cons[k].rightPos < rw
  }

  /** The filter accepts the pair: every bound condition holds. */
  predicate AllHold(cons: seq<TupleCons>, l: Tuple, r: Tuple, cmp: Comparator)
    requires ConsValid(cons, |l|, |r|)
  {
    forall k :: 0 <= k < |cons| ==> ConsHolds(cons[k], l, r, cmp)
  }

  /** The bindings of well-formed conditions between two schemas can be evaluated on their tuples. */
  lemma JoinBindingsValid(left: Schema, right: Schema, conds: seq<Condition>)
    requires AllQualified(conds)
    requires forall k :: 0 <= k < |conds| ==> WellFormedCondition(conds[k])
    ensures ConsValid(JoinBindings(left, right, conds).1, |left|, |right|)
  {
    var bs := JoinBindings(left, right, conds).1;
    JoinBindingsSound(left, right, conds);
    forall k | 0 <= k < |bs|
      ensures bs[k].condition.op.IsOrdinary() && bs[k].leftPos < |left| && bs[k].rightPos < |right|
    {
      WellFormedPairIsOrdinary(bs[k].condition);
    }
  }

  // ---------------------------------------------------------------------------
  // The filtered product

  /** `l` joined with each tuple of `rts` the filter accepts, in order. */
  function Row(cons: seq<TupleCons>, l: Tuple, rts: seq<Tuple>, rw: nat, cmp: Comparator): (r: seq<Tuple>)
    requires ConsValid(cons, |l|, rw) && Widths(rts, rw)
    ensures |r| <= |rts|
  {
    if rts == [] then []
    else
      var n := |rts| - 1;
      var row := Row(cons, l, rts[..n], rw, cmp);
      if AllHold(cons, l, rts[n], cmp) then row + [l + rts[n]] else row
  }

  /** Each running tuple's row, left-major. */
  function Product(cons: seq<TupleCons>, lts: seq<Tuple>, lw: nat, rts: seq<Tuple>, rw: nat, cmp: Comparator): (r: seq<Tuple>)
    requires ConsValid(cons, lw, rw) && Widths(lts, lw) && Widths(rts, rw)
    ensures |r| <= |lts| * |rts|
  {
    if lts == [] then []
    else
      var n := |lts| - 1;
      assert (n + 1) * |rts| == n * |rts| + |rts|;
      Product(cons, lts[..n], lw, rts, rw, cmp) + Row(cons, lts[n], rts, rw, cmp)
  }

  /** Every joined tuple is as wide as the two schemas together. */
  lemma ProductWidths(cons: seq<TupleCons>, lts: seq<Tuple>, lw: nat, rts: seq<Tuple>, rw: nat, cmp: Comparator)
    requires ConsValid(cons, lw, rw) && Widths(lts, lw) && Widths(rts, rw)
    ensures Widths(Product(cons, lts, lw, rts, rw, cmp), lw + rw)
  {
    var out := Product(cons, lts, lw, rts, rw, cmp);
    forall k | 0 <= k < |out| ensures |out[k]| == lw + rw {
      ProductSound(cons, lts, lw, rts, rw, cmp, out[k]);
    }
  }

  /** Every tuple of a row is the running tuple joined with an accepted tuple of the set. */
  lemma {:induction false} RowSound(cons: seq<TupleCons>, l: Tuple, rts: seq<Tuple>, rw: nat, cmp: Comparator, k: nat)
    requires ConsValid(cons, |l|, rw) && Widths(rts, rw)
    requires k < |Row(cons, l, rts, rw, cmp)|
    ensures exists j :: 0 <= j < |rts| && Row(cons, l, rts, rw, cmp)[k] == l + rts[j] && AllHold(cons, l, rts[j], cmp)
  {
    var n := |rts| - 1;
    var row := Row(cons, l, rts[..n], rw, cmp);
    if k < |row| {
      RowSound(cons, l, rts[..n], rw, cmp, k);
      var j :| 0 <= j < n && row[k] == l + rts[..n][j] && AllHold(cons, l, rts[..n][j], cmp);
      assert rts[..n][j] == rts[j];
    } else {
      assert Row(cons, l, rts, rw, cmp)[k] == l + rts[n];
    }
  }

  /** Every accepted tuple of the set appears in the row. */
  lemma {:induction false} RowComplete(cons: seq<TupleCons>, l: Tuple, rts: seq<Tuple>, rw: nat, cmp: Comparator, j: nat)
    requires ConsValid(cons, |l|, rw) && Widths(rts, rw)
    requires j < |rts| && AllHold(cons, l, rts[j], cmp)
    ensures l + rts[j] in Row(cons, l, rts, rw, cmp)
  {
    var n := |rts| - 1;
    if j < n {
      assert rts[..n][j] == rts[j];
      RowComplete(cons, l, rts[..n], rw, cmp, j);
    }
  }

  /** Every tuple of the product joins a running tuple with a tuple of the set that the filter accepts. */
  lemma {:induction false} ProductSound(cons: seq<TupleCons>, lts: seq<Tuple>, lw: nat, rts: seq<Tuple>, rw: nat,
                                        cmp: Comparator, x: Tuple)
    requires ConsValid(cons, lw, rw) && Widths(lts, lw) && Widths(rts, rw)
    requires x in Product(cons, lts, lw, rts, rw, cmp)
    ensures exists i, j :: 0 <= i < |lts| && 0 <= j < |rts| && x == lts[i] + rts[j] && AllHold(cons, lts[i], rts[j], cmp)
  {
    var n := |lts| - 1;
    var p := Product(cons, lts[..n], lw, rts, rw, cmp);
    var row := Row(cons, lts[n], rts, rw, cmp);
    if x in p {
      ProductSound(cons, lts[..n], lw, rts, rw, cmp, x);
      var i, j :| 0 <= i < n && 0 <= j < |rts| && x == lts[..n][i] + rts[j] && AllHold(cons, lts[..n][i], rts[j], cmp);
      assert lts[..n][i] == lts[i];
    } else {
      var k :| 0 <= k < |row| && row[k] == x;
      RowSound(cons, lts[n], rts, rw, cmp, k);
    }
  }

  /** Every accepted pair of a running tuple and a tuple of the set appears in the product. */
  lemma {:induction false} ProductComplete(cons: seq<TupleCons>, lts: seq<Tuple>, lw: nat, rts: seq<Tuple>, rw: nat,
                                           cmp: Comparator, i: nat, j: nat)
    requires ConsValid(cons, lw, rw) && Widths(lts, lw) && Widths(rts, rw)
    requires i < |lts| && j < |rts| && AllHold(cons, lts[i], rts[j], cmp)
    ensures lts[i] + rts[j] in Product(cons, lts, lw, rts, rw, cmp)
  {
    var n := |lts| - 1;
    if i < n {
      assert lts[..n][i] == lts[i];
      ProductComplete(cons, lts[..n], lw, rts, rw, cmp, i, j);
    } else {
      RowComplete(cons, lts[n], rts, rw, cmp, j);
    }
  }

  /** Without bindings a row is the running tuple joined with every tuple of the set, in order. */
  lemma {:induction false} RowNoBindings(l: Tuple, rts: seq<Tuple>, rw: nat, cmp: Comparator)
    requires Widths(rts, rw)
    ensures |Row([], l, rts, rw, cmp)| == |rts|
    ensures forall j :: 0 <= j < |rts| ==> Row([], l, rts, rw, cmp)[j] == l + rts[j]
  {
    if rts != [] {
      var n := |rts| - 1;
      RowNoBindings(l, rts[..n], rw, cmp);
    }
  }

  lemma ConcatLeft(p: seq<Tuple>, q: seq<Tuple>, k: nat)
    requires k < |p|
    ensures (p + q)[k] == p[k]
  {
  }

  lemma ConcatRight(p: seq<Tuple>, q: seq<Tuple>, j: nat)
    requires j < |q|
    ensures (p + q)[|p| + j] == q[j]
  {
  }

  /** Where the row of the `i`-th running tuple starts when every row has `m` tuples. */
  function Offset(i: nat, m: nat): nat {
    if i == 0 then 0 else Offset(i - 1, m) + m
  }

  lemma {:induction false} OffsetIsProduct(i: nat, m: nat)
    ensures Offset(i, m) == i * m
  {
    if i > 0 {
      OffsetIsProduct(i - 1, m);
    }
  }

  /** Rows of `m` tuples do not overlap: a position in an earlier row lies before a later row starts. */
  lemma {:induction false} OffsetBefore(i: nat, j: nat, n: nat, m: nat)
    requires i < n && j < m
    ensures Offset(i, m) + j < Offset(n, m)
  {
    if i < n - 1 {
      OffsetBefore(i, j, n - 1, m);
    }
  }

  /** Without bindings the product has one row of `|rts|` tuples per running tuple. */
  lemma {:induction false} ProductNoBindingsRows(lts: seq<Tuple>, lw: nat, rts: seq<Tuple>, rw: nat, cmp: Comparator)
    requires Widths(lts, lw) && Widths(rts, rw)
    ensures |Product([], lts, lw, rts, rw, cmp)| == Offset(|lts|, |rts|)
  {
    if lts != [] {
      var n := |lts| - 1;
      ProductNoBindingsRows(lts[..n], lw, rts, rw, cmp);
      RowNoBindings(lts[n], rts, rw, cmp);
    }
  }

  /** Without bindings the product has one tuple per pair. */
  lemma ProductNoBindingsLength(lts: seq<Tuple>, lw: nat, rts: seq<Tuple>, rw: nat, cmp: Comparator)
    requires Widths(lts, lw) && Widths(rts, rw)
    ensures |Product([], lts, lw, rts, rw, cmp)| == |lts| * |rts|
  {
    ProductNoBindingsRows(lts, lw, rts, rw, cmp);
    OffsetIsProduct(|lts|, |rts|);
  }

  /** Without bindings, appending a running tuple appends its full row. */
  lemma ProductNoBindingsSnoc(lts: seq<Tuple>, lw: nat, rts: seq<Tuple>, rw: nat, cmp: Comparator)
    requires Widths(lts, lw) && Widths(rts, rw) && lts != []
    ensures Product([], lts, lw, rts, rw, cmp) ==
      Product([], lts[..|lts| - 1], lw, rts, rw, cmp) + Row([], lts[|lts| - 1], rts, rw, cmp)
  {
  }

  /**
   * Without bindings the product is the full cartesian product, left-major:
   * the tuple at `Offset(i, |rts|) + j` is `lts[i] + rts[j]`.
   */
  lemma {:induction false} ProductNoBindingsAt(lts: seq<Tuple>, lw: nat, rts: seq<Tuple>, rw: nat, cmp: Comparator,
                                               i: nat, j: nat)
    requires Widths(lts, lw) && Widths(rts, rw)
    requires i < |lts| && j < |rts|
    ensures Offset(i, |rts|) + j < |Product([], lts, lw, rts, rw, cmp)|
    ensures Product([], lts, lw, rts, rw, cmp)[Offset(i, |rts|) + j] == lts[i] + rts[j]
  {
    ProductNoBindingsRows(lts, lw, rts, rw, cmp);
    OffsetBefore(i, j, |lts|, |rts|);
    var n := |lts| - 1;
    var p := Product([], lts[..n], lw, rts, rw, cmp);
    var row := Row([], lts[n], rts, rw, cmp);
    ProductNoBindingsSnoc(lts, lw, rts, rw, cmp);
    if i < n {
      ProductNoBindingsAt(lts[..n], lw, rts, rw, cmp, i, j);
      assert lts[..n][i] == lts[i];
      ConcatLeft(p, row, Offset(i, |rts|) + j);
    } else {
      ProductNoBindingsRows(lts[..n], lw, rts, rw, cmp);
      RowNoBindings(lts[n], rts, rw, cmp);
      ConcatRight(p, row, j);
    }
  }

  /** The same, with the position written as `i * |rts| + j`. */
  lemma ProductNoBindingsIndex(lts: seq<Tuple>, lw: nat, rts: seq<Tuple>, rw: nat, cmp: Comparator, i: nat, j: nat)
    requires Widths(lts, lw) && Widths(rts, rw)
    requires i < |lts| && j < |rts|
    ensures i * |rts| + j < |Product([], lts, lw, rts, rw, cmp)|
    ensures Product([], lts, lw, rts, rw, cmp)[i * |rts| + j] == lts[i] + rts[j]
  {
    OffsetIsProduct(i, |rts|);
    ProductNoBindingsAt(lts, lw, rts, rw, cmp, i, j);
  }

  // ---------------------------------------------------------------------------
  // Joining all tuple sets

  /** The schemas of the tuple sets, concatenated in order. */
  function SchemaOf(sets: seq<TupleSet>): (s: Schema)
    ensures sets == [] ==> s == []
  {
    if sets == [] then [] else SchemaOf(sets[..|sets| - 1]) + sets[|sets| - 1].schema
  }

  /** Every tuple of every set has one value per column of its schema. */
  predicate SetsFit(sets: seq<TupleSet>) {
    forall k :: 0 <= k < |sets| ==> Widths(sets[k].tuples, |sets[k].schema|)
  }

  predicate JoinConditions(conds: seq<Condition>) {
    AllQualified(conds) && forall k :: 0 <= k < |conds| ==> WellFormedCondition(conds[k])
  }

  /**
   * The join of the tuple sets in order: one empty tuple to start with, then
   * each set's filtered product with the bindings between the schema joined
   * so far and the set's schema; a type mismatch stops the join.
   */
  function JoinSpec(sets: seq<TupleSet>, conds: seq<Condition>, cmp: Comparator): (r: Result<seq<Tuple>>)
    requires SetsFit(sets) && JoinConditions(conds)
    ensures r.Ok? ==> Widths(r.value, |SchemaOf(sets)|)
    ensures r.Err? ==> r.rc == SchemaFieldTypeMismatch
  {
    if sets == [] then Ok([[]])
    else
      var n := |sets| - 1;
      assert SetsFit(sets[..n]);
      match JoinSpec(sets[..n], conds, cmp)
      case Err(e) => Err(e)
      case Ok(running) =>
        var left := SchemaOf(sets[..n]);
        var (rc, cons) := JoinBindings(left, sets[n].schema, conds);
        if rc != Success then Err(rc)
        else
          JoinBindingsValid(left, sets[n].schema, conds);
          ProductWidths(cons, running, |left|, sets[n].tuples, |sets[n].schema|, cmp);
          Ok(Product(cons, running, |left|, sets[n].tuples, |sets[n].schema|, cmp))
  }

  /** The product of the sizes of the tuple sets. */
  function SizeProduct(sets: seq<TupleSet>): nat {
    if sets == [] then 1 else SizeProduct(sets[..|sets| - 1]) * |sets[|sets| - 1].tuples|
  }

  /** Every combination of one tuple from each set, in the join's order: the unfiltered join. */
  function Combos(sets: seq<TupleSet>, cmp: Comparator): (r: seq<Tuple>)
    requires SetsFit(sets)
    ensures Widths(r, |SchemaOf(sets)|)
  {
    if sets == [] then [[]]
    else
      var n := |sets| - 1;
      assert SetsFit(sets[..n]);
      var left := Combos(sets[..n], cmp);
      ProductWidths([], left, |SchemaOf(sets[..n])|, sets[n].tuples, |sets[n].schema|, cmp);
      Product([], left, |SchemaOf(sets[..n])|, sets[n].tuples, |sets[n].schema|, cmp)
  }

  /** There are as many combinations as the product of the set sizes. */
  lemma {:induction false} CombosCount(sets: seq<TupleSet>, cmp: Comparator)
    requires SetsFit(sets)
    ensures |Combos(sets, cmp)| == SizeProduct(sets)
  {
    if sets != [] {
      var n := |sets| - 1;
      assert SetsFit(sets[..n]);
      CombosCount(sets[..n], cmp);
      ProductNoBindingsLength(Combos(sets[..n], cmp), |SchemaOf(sets[..n])|, sets[n].tuples, |sets[n].schema|, cmp);
    }
  }

  /** Without conditions nothing is bound and nothing filtered: the join is every combination. */
  lemma {:induction false} JoinWithoutConditions(sets: seq<TupleSet>, cmp: Comparator)
    requires SetsFit(sets)
    ensures JoinSpec(sets, [], cmp) == Ok(Combos(sets, cmp))
  {
    if sets != [] {
      var n := |sets| - 1;
      assert SetsFit(sets[..n]);
      JoinWithoutConditions(sets[..n], cmp);
    }
  }

  /** Filtering only removes: every joined tuple is one of the combinations. */
  lemma {:induction false} JoinSound(sets: seq<TupleSet>, conds: seq<Condition>, cmp: Comparator, x: Tuple)
    requires SetsFit(sets) && JoinConditions(conds)
    requires JoinSpec(sets, conds, cmp).Ok? && x in JoinSpec(sets, conds, cmp).value
    ensures x in Combos(sets, cmp)
  {
    if sets != [] {
      var n := |sets| - 1;
      assert SetsFit(sets[..n]);
      var running := JoinSpec(sets[..n], conds, cmp).value;
      var left := SchemaOf(sets[..n]);
      var cons := JoinBindings(left, sets[n].schema, conds).1;
      JoinBindingsValid(left, sets[n].schema, conds);
      ProductSound(cons, running, |left|, sets[n].tuples, |sets[n].schema|, cmp, x);
      var i, j :| 0 <= i < |running| && 0 <= j < |sets[n].tuples| && x == running[i] + sets[n].tuples[j]
        && AllHold(cons, running[i], sets[n].tuples[j], cmp);
      JoinSound(sets[..n], conds, cmp, running[i]);
      var combos := Combos(sets[..n], cmp);
      var c :| 0 <= c < |combos| && combos[c] == running[i];
      ProductComplete([], combos, |left|, sets[n].tuples, |sets[n].schema|, cmp, c, j);
    }
  }

  /** The columns of the named tables, concatenated in order. */
  function TablesSchema(cat: Catalogue, tables: seq<string>): (s: Schema)
    requires forall k :: 0 <= k < |tables| ==> tables[k] in cat
  {
    if tables == [] then []
    else
      var n := |tables| - 1;
      TablesSchema(cat, tables[..n]) + FromTable(tables[n], cat[tables[n]])
  }

  /** Sets read from the tables of `order`, in that order, have the tables' columns as their joined schema. */
  lemma {:induction false} SchemaOfTables(cat: Catalogue, sets: seq<TupleSet>, order: seq<string>)
    requires |sets| == |order|
    requires forall k :: 0 <= k < |order| ==> order[k] in cat && sets[k].schema == FromTable(order[k], cat[order[k]])
    ensures SchemaOf(sets) == TablesSchema(cat, order)
  {
    if sets != [] {
      var n := |sets| - 1;
      SchemaOfTables(cat, sets[..n], order[..n]);
    }
  }

  /** Once a prefix of the sets fails to join, the whole join fails the same way. */
  lemma {:induction false} JoinKeepsError(sets: seq<TupleSet>, conds: seq<Condition>, cmp: Comparator, k: nat)
    requires SetsFit(sets) && JoinConditions(conds) && k <= |sets|
    requires SetsFit(sets[..k]) && JoinSpec(sets[..k], conds, cmp).Err?
    ensures JoinSpec(sets, conds, cmp) == JoinSpec(sets[..k], conds, cmp)
    decreases |sets| - k
  {
    if k < |sets| {
      assert sets[..k + 1][..k] == sets[..k];
      assert SetsFit(sets[..k + 1]);
      JoinKeepsError(sets, conds, cmp, k + 1);
    } else {
      assert sets[..k] == sets;
    }
  }

  // ---------------------------------------------------------------------------
  // The loops

  /** The inner loop: joins one running tuple with the tuples of the set the filter accepts. */
  method FilterRow(tf: TupleFilter, l: Tuple, rts: seq<Tuple>, rw: nat, cmp: Comparator) returns (row: seq<Tuple>)
    requires tf.Valid() && ConsValid(tf.consVector, |l|, rw) && Widths(rts, rw)
    ensures row == Row(tf.consVector, l, rts, rw, cmp)
  {
    row := [];
    var j := 0;
    while j < |rts|
      invariant 0 <= j <= |rts|
      invariant Widths(rts[..j], rw)
      invariant row == Row(tf.consVector, l, rts[..j], rw, cmp)
    {
      assert rts[..j + 1][..j] == rts[..j];
      var ok := tf.Filter(l, rts[j], cmp);
      if ok {
        row := row + [l + rts[j]];
      }
      j := j + 1;
    }
    assert rts[..j] == rts;
  }

  /** The outer loop: every running tuple's row, left-major. */
  method FilterProduct(tf: TupleFilter, lts: seq<Tuple>, lw: nat, rts: seq<Tuple>, rw: nat, cmp: Comparator)
    returns (out: seq<Tuple>)
    requires tf.Valid() && ConsValid(tf.consVector, lw, rw) && Widths(lts, lw) && Widths(rts, rw)
    ensures out == Product(tf.consVector, lts, lw, rts, rw, cmp)
  {
    out := [];
    var i := 0;
    while i < |lts|
      invariant 0 <= i <= |lts|
      invariant Widths(lts[..i], lw)
      invariant out == Product(tf.consVector, lts[..i], lw, rts, rw, cmp)
    {
      assert lts[..i + 1][..i] == lts[..i];
      var row := FilterRow(tf, lts[i], rts, rw, cmp);
      out := out + row;
      i := i + 1;
    }
    assert lts[..i] == lts;
  }

  /** Joins the tuple sets in order, building a fresh join filter for each. */
  method JoinTupleSets(sets: seq<TupleSet>, conds: seq<Condition>, cmp: Comparator) returns (rc: Rc, tuples: seq<Tuple>)
    requires SetsFit(sets) && JoinConditions(conds)
    ensures rc == Success <==> JoinSpec(sets, conds, cmp).Ok?
    ensures rc == Success ==> tuples == JoinSpec(sets, conds, cmp).value
    ensures rc != Success ==> rc == JoinSpec(sets, conds, cmp).rc
  {
    var tupleVector: seq<Tuple> := [[]];
    var leftSchema: Schema := [];
    var s := 0;
    while s < |sets|
      invariant 0 <= s <= |sets|
      invariant SetsFit(sets[..s])
      invariant leftSchema == SchemaOf(sets[..s])
      invariant JoinSpec(sets[..s], conds, cmp) == Ok(tupleVector)
    {
      assert sets[..s + 1][..s] == sets[..s];
      assert SetsFit(sets[..s + 1]);
      var rightSchema := sets[s].schema;
      var tf := new TupleFilter();
      rc := tf.Init(leftSchema, rightSchema, conds);
      if rc != Success {
        JoinKeepsError(sets, conds, cmp, s + 1);
        return rc, [];
      }
      JoinBindingsValid(leftSchema, rightSchema, conds);
      var next := FilterProduct(tf, tupleVector, |leftSchema|, sets[s].tuples, |rightSchema|, cmp);
      assert tf.consVector == JoinBindings(leftSchema, rightSchema, conds).1;
      assert sets[..s + 1][s] == sets[s];
      assert JoinSpec(sets[..s + 1], conds, cmp) == Ok(next);
      leftSchema := leftSchema + rightSchema;
      tupleVector := next;
      s := s + 1;
    }
    assert sets[..s] == sets;
    return Success, tupleVector;
  }

  // ---------------------------------------------------------------------------
  // select_filter_tuples

  /** The scan returns, for a table of the catalogue, tuples with one value per column. */
  ghost predicate ScanFits(cat: Catalogue, scan: Scan) {
    forall t, bs, k :: t in cat && 0 <= k < |scan(t, bs)| ==> |scan(t, bs)[k]| == |cat[t]|
  }

  lemma AllTupleSetsFit(cat: Catalogue, sel: Selects, scan: Scan)
    requires ScanFits(cat, scan) && AllTupleSets(cat, sel, scan).Ok?
    ensures SetsFit(AllTupleSets(cat, sel, scan).value)
  {
  }

  /**
   * The joined schema and the joined tuples of a query: the tuple sets read
   * table by table (the last relation first), their schemas concatenated,
   * and the filtered join of their tuples.
   */
  function FilterTuples(cat: Catalogue, sel: Selects, scan: Scan, cmp: Comparator): (r: Result<(Schema, seq<Tuple>)>)
    requires JoinConditions(sel.conditions) && ScanFits(cat, scan)
    ensures r.Err? ==> r.rc != Success
    ensures r.Ok? ==> Widths(r.value.1, |r.value.0|)
  {
    match AllTupleSets(cat, sel, scan)
    case Err(e) => Err(e)
    case Ok(sets) =>
      AllTupleSetsFit(cat, sel, scan);
      match JoinSpec(sets, sel.conditions, cmp)
      case Err(e) => Err(e)
      case Ok(tuples) => Ok((SchemaOf(sets), tuples))
  }

  /** The joined schema has the columns of every relation, the last relation's first. */
  lemma FilterTuplesSchema(cat: Catalogue, sel: Selects, scan: Scan, cmp: Comparator)
    requires JoinConditions(sel.conditions) && ScanFits(cat, scan)
    requires FilterTuples(cat, sel, scan, cmp).Ok?
    ensures forall t :: t in sel.relations ==> t in cat
    ensures FilterTuples(cat, sel, scan, cmp).value.0 == TablesSchema(cat, Reversed(sel.relations))
  {
    assert AllTupleSets(cat, sel, scan).Ok?;
    var sets := AllTupleSets(cat, sel, scan).value;
    ScannedSchemas(cat, sel, scan);
    SchemaOfTables(cat, sets, Reversed(sel.relations));
    assert FilterTuples(cat, sel, scan, cmp).value.0 == SchemaOf(sets);
  }

  /** The scanned sets of a successful plan carry their tables' schemas, in reversed relation order. */
  lemma ScannedSchemas(cat: Catalogue, sel: Selects, scan: Scan)
    requires AllTupleSets(cat, sel, scan).Ok?
    ensures forall t :: t in sel.relations ==> t in cat
    ensures |AllTupleSets(cat, sel, scan).value| == |Reversed(sel.relations)|
    ensures forall k :: 0 <= k < |Reversed(sel.relations)| ==> (Reversed(sel.relations)[k] in cat
      && AllTupleSets(cat, sel, scan).value[k].schema == FromTable(Reversed(sel.relations)[k], cat[Reversed(sel.relations)[k]]))
  {
    var sets := AllTupleSets(cat, sel, scan).value;
    var order := Reversed(sel.relations);
    var n := |sel.relations|;
    forall k | 0 <= k < |order| ensures order[k] in cat && sets[k].schema == FromTable(order[k], cat[order[k]]) {
      assert order[k] == sel.relations[n - 1 - k];
      assert ScannedAs(cat, sel, scan, sel.relations[n - 1 - k], sets[k]);
    }
  }

  /** Without conditions the query's tuples are every combination of the tables' tuples. */
  lemma FilterTuplesWithoutConditions(cat: Catalogue, sel: Selects, scan: Scan, cmp: Comparator)
    requires sel.conditions == [] && ScanFits(cat, scan)
    requires AllTupleSets(cat, sel, scan).Ok?
    ensures FilterTuples(cat, sel, scan, cmp).Ok?
    ensures |FilterTuples(cat, sel, scan, cmp).value.1| == SizeProduct(AllTupleSets(cat, sel, scan).value)
  {
    var sets := AllTupleSets(cat, sel, scan).value;
    AllTupleSetsFit(cat, sel, scan);
    JoinWithoutConditions(sets, cmp);
    CombosCount(sets, cmp);
  }

  /** The joined schema, appended set by set. */
  method AppendSchemas(sets: seq<TupleSet>) returns (schema: Schema)
    ensures schema == SchemaOf(sets)
  {
    schema := [];
    var k := 0;
    while k < |sets|
      invariant 0 <= k <= |sets|
      invariant schema == SchemaOf(sets[..k])
    {
      assert sets[..k + 1][..k] == sets[..k];
      schema := schema + sets[k].schema;
      k := k + 1;
    }
    assert sets[..k] == sets;
  }

  /** The executor's `select_filter_tuples`: read every table, concatenate the schemas, join. */
  method SelectFilterTuples(cat: Catalogue, sel: Selects, scan: Scan, cmp: Comparator)
    returns (rc: Rc, schema: Schema, tuples: seq<Tuple>)
    requires JoinConditions(sel.conditions) && ScanFits(cat, scan)
    ensures rc == Success <==> FilterTuples(cat, sel, scan, cmp).Ok?
    ensures rc == Success ==> (schema, tuples) == FilterTuples(cat, sel, scan, cmp).value
    ensures rc != Success ==> rc == FilterTuples(cat, sel, scan, cmp).rc
  {
    var sets;
    rc, sets := SelectAllTableTupleSets(cat, sel, scan);
    schema, tuples := [], [];
    if rc != Success {
      return;
    }
    AllTupleSetsFit(cat, sel, scan);
    schema := AppendSchemas(sets);
    rc, tuples := JoinTupleSets(sets, sel.conditions, cmp);
    if rc != Success {
      tuples := [];
    }
  }
}
