/*
 * ORDER BY (`order_tuples` in sql/executor/select_executor.cpp).
 *
 * Each order item is resolved to a column position of the joined schema;
 * the tuples are then sorted stably by the comparison the first differing
 * key decides. `Less` is that comparison, `InsertionSorted` the stable
 * sort it induces; the lemmas show the comparison is a strict weak order
 * when the value comparison is a total preorder, and that the sort result
 * is a sorted, stable permutation of its input.
 */
module Ordering {
  import opened Common
  import opened Schemas
  import opened NameResolution
  import opened TupleFilters

  /** A resolved order item: a column position and whether it sorts descending. */
  datatype SortKey = SortKey(pos: nat, isDesc: bool)

  predicate KeysBelow(keys: seq<SortKey>, w: nat) {
    forall k :: 0 <= k < |keys| ==> keys[k].pos < w
  }

  // ---------------------------------------------------------------------------
  // Resolving the order items

  /**
   * One order item: a missing column name, a bare name that no single
   * relation holds, or a column the joined schema lacks is a syntax error.
   */
  function OrderKey(schema: Schema, relations: seq<string>, o: OrderBy): (r: Result<SortKey>)
    ensures r.Err? ==> r.rc == SqlSyntax
    ensures r.Ok? ==> r.value.pos < |schema| && r.value.isDesc == o.isDesc
  {
    match o.attr.attribute
    case None => Err(SqlSyntax)
    case Some(field) =>
      var table := if o.attr.relation.Some? then o.attr.relation else UniqueTableName(schema, relations, field);
      match table
      case None => Err(SqlSyntax)
      case Some(t) =>
        var pos := IndexOfField(schema, t, field);
        if pos == -1 then Err(SqlSyntax) else Ok(SortKey(pos, o.isDesc))
  }

  /** A resolved key sorts on the first column with the item's table and field name. */
  lemma OrderKeyColumn(schema: Schema, relations: seq<string>, o: OrderBy)
    requires OrderKey(schema, relations, o).Ok?
    ensures o.attr.attribute.Some?
    ensures var t := if o.attr.relation.Some? then o.attr.relation.value
                     else UniqueTableName(schema, relations, o.attr.attribute.value).value;
      var pos := OrderKey(schema, relations, o).value.pos;
      Names(schema[pos], t, o.attr.attribute.value) && forall k :: 0 <= k < pos ==> !Names(schema[k], t, o.attr.attribute.value)
  {
  }

  /** All order items, in their stored order; the first that fails stops the resolution. */
  function OrderKeys(schema: Schema, relations: seq<string>, orders: seq<OrderBy>): (r: Result<seq<SortKey>>)
    ensures r.Err? ==> r.rc == SqlSyntax
    ensures r.Ok? ==> |r.value| == |orders| && KeysBelow(r.value, |schema|)
  {
    if orders == [] then Ok([])
    else
      var n := |orders| - 1;
      match OrderKeys(schema, relations, orders[..n])
      case Err(e) => Err(e)
      case Ok(keys) =>
        match OrderKey(schema, relations, orders[n])
        case Err(e) => Err(e)
        case Ok(key) => Ok(keys + [key])
  }

  /** A successful resolution keeps each item's key in place. */
  lemma {:induction false} OrderKeysAt(schema: Schema, relations: seq<string>, orders: seq<OrderBy>, k: nat)
    requires k < |orders| && OrderKeys(schema, relations, orders).Ok?
    ensures OrderKey(schema, relations, orders[k]) == Ok(OrderKeys(schema, relations, orders).value[k])
  {
    var n := |orders| - 1;
    OrderKeysLast(schema, relations, orders);
    var keys := OrderKeys(schema, relations, orders).value;
    var front := OrderKeys(schema, relations, orders[..n]).value;
    assert keys == front + [OrderKey(schema, relations, orders[n]).value];
    if k < n {
      OrderKeysAt(schema, relations, orders[..n], k);
      assert orders[..n][k] == orders[k];
      assert keys[k] == front[k];
    } else {
      assert keys[k] == OrderKey(schema, relations, orders[n]).value;
    }
  }

  /** A successful resolution is that of all items but the last, followed by the last item's key. */
  lemma OrderKeysLast(schema: Schema, relations: seq<string>, orders: seq<OrderBy>)
    requires orders != [] && OrderKeys(schema, relations, orders).Ok?
    ensures OrderKeys(schema, relations, orders[..|orders| - 1]).Ok?
    ensures OrderKey(schema, relations, orders[|orders| - 1]).Ok?
    ensures OrderKeys(schema, relations, orders).value
         == OrderKeys(schema, relations, orders[..|orders| - 1]).value + [OrderKey(schema, relations, orders[|orders| - 1]).value]
  {
  }

  /** The resolution succeeds when every item resolves. */
  lemma {:induction false} OrderKeysAllResolve(schema: Schema, relations: seq<string>, orders: seq<OrderBy>)
    requires forall k :: 0 <= k < |orders| ==> OrderKey(schema, relations, orders[k]).Ok?
    ensures OrderKeys(schema, relations, orders).Ok?
  {
    if orders != [] {
      var n := |orders| - 1;
      assert forall k :: 0 <= k < n ==> orders[..n][k] == orders[k];
      OrderKeysAllResolve(schema, relations, orders[..n]);
    }
  }

  /** One order item: its column's position, looked up as the select list looks columns up. */
  method ResolveOrder(schema: Schema, relations: seq<string>, o: OrderBy) returns (rc: Rc, key: SortKey)
    ensures rc == Success <==> OrderKey(schema, relations, o).Ok?
    ensures rc == Success ==> key == OrderKey(schema, relations, o).value
    ensures rc != Success ==> rc == SqlSyntax
  {
    key := SortKey(0, o.isDesc);
    if o.attr.attribute.None? {
      return SqlSyntax, key;
    }
    var field := o.attr.attribute.value;
    var table := o.attr.relation;
    if table.None? {
      table := GetUniqueTableName(schema, relations, field);
      if table.None? {
        return SqlSyntax, key;
      }
    }
    var pos := IndexOfField(schema, table.value, field);
    if pos == -1 {
      return SqlSyntax, key;
    }
    return Success, SortKey(pos, o.isDesc);
  }

  /** The executor's loop over the order items. */
  method ResolveOrders(schema: Schema, relations: seq<string>, orders: seq<OrderBy>) returns (rc: Rc, keys: seq<SortKey>)
    ensures rc == Success <==> OrderKeys(schema, relations, orders).Ok?
    ensures rc == Success ==> keys == OrderKeys(schema, relations, orders).value
    ensures rc != Success ==> rc == SqlSyntax
  {
    keys := [];
    var i := 0;
    while i < |orders|
      invariant 0 <= i <= |orders|
      invariant OrderKeys(schema, relations, orders[..i]) == Ok(keys)
    {
      assert orders[..i + 1][..i] == orders[..i];
      var key;
      rc, key := ResolveOrder(schema, relations, orders[i]);
      if rc != Success {
        OrderKeysFail(schema, relations, orders, i + 1);
        return SqlSyntax, [];
      }
      keys := keys + [key];
      i := i + 1;
    }
    assert orders[..i] == orders;
    return Success, keys;
  }

  /** A failing prefix makes the whole resolution fail. */
  lemma {:induction false} OrderKeysFail(schema: Schema, relations: seq<string>, orders: seq<OrderBy>, k: nat)
    requires k <= |orders| && OrderKeys(schema, relations, orders[..k]).Err?
    ensures OrderKeys(schema, relations, orders).Err?
    decreases |orders| - k
  {
    if k < |orders| {
      assert orders[..k + 1][..k] == orders[..k];
      OrderKeysFail(schema, relations, orders, k + 1);
    } else {
      assert orders[..k] == orders;
    }
  }

  // ---------------------------------------------------------------------------
  // The comparison

  /** The value comparison orders values totally, ties allowed. */
  ghost predicate TotalPreorder(cmp: Comparator) {
    (forall a, b :: cmp(a, b) < 0 <==> cmp(b, a) > 0)
    && (forall a, b, c :: cmp(a, b) <= 0 && cmp(b, c) <= 0 ==> cmp(a, c) <= 0)
  }

  /**
   * The value of a tuple at a key position. Keys are resolved against the
   * schema the tuples have, so the position is always in range; outside it
   * the function gives NULL only to be total.
   */
  function At(t: Tuple, pos: nat): (v: Value)
    ensures pos < |t| ==> v == t[pos]
  {
    if pos < |t| then t[pos] else NullVal
  }

  /**
   * The sort's comparison: the first key on which the values differ decides,
   * the smaller value first unless the key is descending; tuples equal on
   * every key are not ordered.
   */
  function Less(keys: seq<SortKey>, cmp: Comparator, x: Tuple, y: Tuple): bool {
    if keys == [] then false
    else
      var r := cmp(At(x, keys[0].pos), At(y, keys[0].pos));
      if r != 0 then (r < 0) != keys[0].isDesc
      else Less(keys[1..], cmp, x, y)
  }

  /**
   * Key `i` decides for `x`: the tuples agree on every key before it, differ
   * on it, and `x` has the smaller value there, or the greater one when the
   * key is descending.
   */
  predicate DecidesAt(keys: seq<SortKey>, cmp: Comparator, x: Tuple, y: Tuple, i: nat)
    requires i < |keys|
  {
    (forall j :: 0 <= j < i ==> cmp(At(x, keys[j].pos), At(y, keys[j].pos)) == 0)
    && cmp(At(x, keys[i].pos), At(y, keys[i].pos)) != 0
    && (cmp(At(x, keys[i].pos), At(y, keys[i].pos)) < 0) != keys[i].isDesc
  }

  /**
   * The comparison is lexicographic: `x` comes before `y` exactly when some
   * key decides for `x`, every earlier key leaving the two tied.
   */
  lemma {:induction false} LessLexicographic(keys: seq<SortKey>, cmp: Comparator, x: Tuple, y: Tuple)
    ensures Less(keys, cmp, x, y) <==> exists i :: 0 <= i < |keys| && DecidesAt(keys, cmp, x, y, i)
    decreases |keys|
  {
    if keys != [] {
      LessUnfold(keys, cmp, x, y);
      LessLexicographic(keys[1..], cmp, x, y);
    }
  }

  /** The first key decides when the tuples differ on it; otherwise the remaining keys do. */
  lemma LessUnfold(keys: seq<SortKey>, cmp: Comparator, x: Tuple, y: Tuple)
    requires keys != []
    ensures var r := cmp(At(x, keys[0].pos), At(y, keys[0].pos));
      r != 0 ==> ((exists i :: 0 <= i < |keys| && DecidesAt(keys, cmp, x, y, i)) <==> (r < 0) != keys[0].isDesc)
    ensures var r := cmp(At(x, keys[0].pos), At(y, keys[0].pos));
      r == 0 ==> ((exists i :: 0 <= i < |keys| && DecidesAt(keys, cmp, x, y, i))
                  <==> exists i :: 0 <= i < |keys| - 1 && DecidesAt(keys[1..], cmp, x, y, i))
  {
    var r := cmp(At(x, keys[0].pos), At(y, keys[0].pos));
    if r != 0 {
      if (r < 0) != keys[0].isDesc {
        assert DecidesAt(keys, cmp, x, y, 0);
      }
    } else {
      forall i | 0 <= i < |keys| - 1
        ensures DecidesAt(keys[1..], cmp, x, y, i) <==> DecidesAt(keys, cmp, x, y, i + 1)
      {
        assert forall j :: 0 <= j < i ==> keys[1..][j] == keys[j + 1];
        if DecidesAt(keys[1..], cmp, x, y, i) {
          forall j | 0 <= j < i + 1 ensures cmp(At(x, keys[j].pos), At(y, keys[j].pos)) == 0 {
            if j > 0 { assert keys[j] == keys[1..][j - 1]; }
          }
        }
      }
      if exists i :: 0 <= i < |keys| && DecidesAt(keys, cmp, x, y, i) {
        var i :| 0 <= i < |keys| && DecidesAt(keys, cmp, x, y, i);
        assert i != 0;
        assert DecidesAt(keys[1..], cmp, x, y, i - 1);
      }
    }
  }

  /** The comparator's loop over the keys, with its early return. */
  method CompareTuples(keys: seq<SortKey>, cmp: Comparator, x: Tuple, y: Tuple) returns (less: bool)
    requires KeysBelow(keys, |x|) && KeysBelow(keys, |y|)
    ensures less == Less(keys, cmp, x, y)
  {
    var i := 0;
    while i < |keys|
      invariant 0 <= i <= |keys|
      invariant Less(keys, cmp, x, y) == Less(keys[i..], cmp, x, y)
    {
      var r := cmp(x[keys[i].pos], y[keys[i].pos]);
      if r != 0 {
        return (r < 0) != keys[i].isDesc;
      }
      assert keys[i..][1..] == keys[i + 1..];
      i := i + 1;
    }
    return false;
  }

  /** No tuple comes before itself, and of two tuples at most one comes first. */
  lemma {:induction false} LessAsymmetric(keys: seq<SortKey>, cmp: Comparator, x: Tuple, y: Tuple)
    requires TotalPreorder(cmp)
    ensures Less(keys, cmp, x, y) ==> !Less(keys, cmp, y, x)
  {
    if keys != [] {
      LessAsymmetric(keys[1..], cmp, x, y);
    }
  }

  /** "Not after" is transitive, which with asymmetry makes `Less` a strict weak order. */
  lemma {:induction false} NotLessTransitive(keys: seq<SortKey>, cmp: Comparator, x: Tuple, y: Tuple, z: Tuple)
    requires TotalPreorder(cmp)
    requires !Less(keys, cmp, y, x) && !Less(keys, cmp, z, y)
    ensures !Less(keys, cmp, z, x)
  {
    if keys != [] {
      var p := keys[0].pos;
      var a, b, c := At(x, p), At(y, p), At(z, p);
      assert cmp(a, b) < 0 <==> cmp(b, a) > 0;
      assert cmp(b, c) < 0 <==> cmp(c, b) > 0;
      assert cmp(a, c) < 0 <==> cmp(c, a) > 0;
      assert cmp(a, b) <= 0 && cmp(b, c) <= 0 ==> cmp(a, c) <= 0;
      assert cmp(c, b) <= 0 && cmp(b, a) <= 0 ==> cmp(c, a) <= 0;
      assert cmp(b, c) <= 0 && cmp(c, a) <= 0 ==> cmp(b, a) <= 0;
      assert cmp(a, c) <= 0 && cmp(c, b) <= 0 ==> cmp(a, b) <= 0;
      assert cmp(c, a) <= 0 && cmp(a, b) <= 0 ==> cmp(c, b) <= 0;
      assert cmp(b, a) <= 0 && cmp(a, c) <= 0 ==> cmp(b, c) <= 0;
      if cmp(b, a) == 0 && cmp(c, b) == 0 {
        NotLessTransitive(keys[1..], cmp, x, y, z);
      }
    }
  }

  /** Tuples the comparison does not separate: equal on every key. */
  predicate Tied(keys: seq<SortKey>, cmp: Comparator, x: Tuple, y: Tuple) {
    !Less(keys, cmp, x, y) && !Less(keys, cmp, y, x)
  }

  /** A tuple is tied with itself. */
  lemma TiedSelf(keys: seq<SortKey>, cmp: Comparator, y: Tuple)
    requires TotalPreorder(cmp)
    ensures Tied(keys, cmp, y, y)
  {
    LessAsymmetric(keys, cmp, y, y);
  }

  // ---------------------------------------------------------------------------
  // The stable sort

  /** Inserts `x` after every tuple of `s` that it does not come before. */
  function Insert(keys: seq<SortKey>, cmp: Comparator, s: seq<Tuple>, x: Tuple): (r: seq<Tuple>)
    ensures |r| == |s| + 1
  {
    if s == [] then [x]
    else
      var n := |s| - 1;
      if Less(keys, cmp, x, s[n]) then Insert(keys, cmp, s[..n], x) + [s[n]] else s + [x]
  }

  /** The stable sort of `s`: each tuple inserted in turn into the sorted prefix. */
  function InsertionSorted(keys: seq<SortKey>, cmp: Comparator, s: seq<Tuple>): (r: seq<Tuple>)
    ensures |r| == |s|
  {
    if s == [] then []
    else
      var n := |s| - 1;
      Insert(keys, cmp, InsertionSorted(keys, cmp, s[..n]), s[n])
  }

  /** No tuple comes before an earlier one. */
  predicate Sorted(keys: seq<SortKey>, cmp: Comparator, s: seq<Tuple>) {
    forall i, j :: 0 <= i < j < |s| ==> !Less(keys, cmp, s[j], s[i])
  }

  lemma {:induction false} InsertPermutes(keys: seq<SortKey>, cmp: Comparator, s: seq<Tuple>, x: Tuple)
    ensures multiset(Insert(keys, cmp, s, x)) == multiset(s) + multiset{x}
  {
    if s != [] {
      var n := |s| - 1;
      assert s == s[..n] + [s[n]];
      InsertPermutes(keys, cmp, s[..n], x);
    }
  }

  /** The sort only rearranges: the result holds the same tuples, as often. */
  lemma {:induction false} SortPermutes(keys: seq<SortKey>, cmp: Comparator, s: seq<Tuple>)
    ensures multiset(InsertionSorted(keys, cmp, s)) == multiset(s)
  {
    if s != [] {
      var n := |s| - 1;
      assert s == s[..n] + [s[n]];
      SortPermutes(keys, cmp, s[..n]);
      InsertPermutes(keys, cmp, InsertionSorted(keys, cmp, s[..n]), s[n]);
    }
  }

  /** Tuples of the same width sort into tuples of that width. */
  lemma SortWidths(keys: seq<SortKey>, cmp: Comparator, s: seq<Tuple>, w: nat)
    requires Widths(s, w)
    ensures Widths(InsertionSorted(keys, cmp, s), w)
  {
    var r := InsertionSorted(keys, cmp, s);
    SortPermutes(keys, cmp, s);
    forall k | 0 <= k < |r| ensures |r[k]| == w {
      assert r[k] in multiset(s);
    }
  }

  /** Inserting into a sorted sequence keeps it sorted. */
  lemma {:induction false} InsertSorted(keys: seq<SortKey>, cmp: Comparator, s: seq<Tuple>, x: Tuple)
    requires TotalPreorder(cmp) && Sorted(keys, cmp, s)
    ensures Sorted(keys, cmp, Insert(keys, cmp, s, x))
    decreases |s|, 1
  {
    if s != [] {
      if Less(keys, cmp, x, s[|s| - 1]) {
        InsertSortedBefore(keys, cmp, s, x);
      } else {
        InsertSortedAfter(keys, cmp, s, x);
      }
    }
  }

  lemma {:induction false} InsertSortedBefore(keys: seq<SortKey>, cmp: Comparator, s: seq<Tuple>, x: Tuple)
    requires TotalPreorder(cmp) && Sorted(keys, cmp, s)
    requires s != [] && Less(keys, cmp, x, s[|s| - 1])
    ensures Sorted(keys, cmp, Insert(keys, cmp, s, x))
    decreases |s|, 0
  {
    var n := |s| - 1;
    var last := s[n];
    var front := Insert(keys, cmp, s[..n], x);
    InsertSorted(keys, cmp, s[..n], x);
    InsertPermutes(keys, cmp, s[..n], x);
    LessAsymmetric(keys, cmp, x, last);
    forall i | 0 <= i < |front| ensures !Less(keys, cmp, last, front[i]) {
      assert front[i] in multiset(s[..n]) + multiset{x};
      if front[i] != x {
        var k :| 0 <= k < n && s[..n][k] == front[i];
        assert s[k] == front[i];
      }
    }
    var r := front + [last];
    forall i, j | 0 <= i < j < |r| ensures !Less(keys, cmp, r[j], r[i]) {
      if j < |front| {
        assert r[i] == front[i] && r[j] == front[j];
      }
    }
  }

  lemma {:induction false} InsertSortedAfter(keys: seq<SortKey>, cmp: Comparator, s: seq<Tuple>, x: Tuple)
    requires TotalPreorder(cmp) && Sorted(keys, cmp, s)
    requires s != [] && !Less(keys, cmp, x, s[|s| - 1])
    ensures Sorted(keys, cmp, Insert(keys, cmp, s, x))
  {
    var n := |s| - 1;
    var r := s + [x];
    forall i, j | 0 <= i < j < |r| ensures !Less(keys, cmp, r[j], r[i]) {
      if j == n + 1 && i < n {
        NotLessTransitive(keys, cmp, s[i], s[n], x);
      }
    }
  }

  /** The result is in order: no tuple comes before an earlier one. */
  lemma {:induction false} SortSorts(keys: seq<SortKey>, cmp: Comparator, s: seq<Tuple>)
    requires TotalPreorder(cmp)
    ensures Sorted(keys, cmp, InsertionSorted(keys, cmp, s))
  {
    if s != [] {
      var n := |s| - 1;
      SortSorts(keys, cmp, s[..n]);
      InsertSorted(keys, cmp, InsertionSorted(keys, cmp, s[..n]), s[n]);
    }
  }

  /** The tuples of `s` tied with `z`, in their order in `s`. */
  function TiedWith(keys: seq<SortKey>, cmp: Comparator, s: seq<Tuple>, z: Tuple): seq<Tuple> {
    if s == [] then []
    else
      var n := |s| - 1;
      TiedWith(keys, cmp, s[..n], z) + (if Tied(keys, cmp, s[n], z) then [s[n]] else [])
  }

  lemma TiedWithOne(keys: seq<SortKey>, cmp: Comparator, x: Tuple, z: Tuple)
    ensures TiedWith(keys, cmp, [x], z) == (if Tied(keys, cmp, x, z) then [x] else [])
  {
    assert [x][..0] == [];
  }

  /** Two pieces that commute can be appended in either order. */
  lemma SwapTail(a: seq<Tuple>, u: seq<Tuple>, v: seq<Tuple>)
    requires u + v == v + u
    ensures (a + u) + v == (a + v) + u
  {
    assert (a + u) + v == a + (u + v);
    assert (a + v) + u == a + (v + u);
  }

  lemma {:induction false} InsertStable(keys: seq<SortKey>, cmp: Comparator, s: seq<Tuple>, x: Tuple, z: Tuple)
    requires TotalPreorder(cmp)
    ensures TiedWith(keys, cmp, Insert(keys, cmp, s, x), z) == TiedWith(keys, cmp, s, z) + TiedWith(keys, cmp, [x], z)
  {
    TiedWithOne(keys, cmp, x, z);
    if s != [] {
      var n := |s| - 1;
      var last := s[n];
      var tx := if Tied(keys, cmp, x, z) then [x] else [];
      var tl := if Tied(keys, cmp, last, z) then [last] else [];
      assert TiedWith(keys, cmp, s, z) == TiedWith(keys, cmp, s[..n], z) + tl;
      if Less(keys, cmp, x, last) {
        var front := Insert(keys, cmp, s[..n], x);
        InsertStable(keys, cmp, s[..n], x, z);
        var r := front + [last];
        assert Insert(keys, cmp, s, x) == r;
        assert r[..|r| - 1] == front;
        assert TiedWith(keys, cmp, r, z) == TiedWith(keys, cmp, front, z) + tl;
        if Tied(keys, cmp, x, z) && Tied(keys, cmp, last, z) {
          NotLessTransitive(keys, cmp, last, z, x);
          assert false;
        }
        var a := TiedWith(keys, cmp, s[..n], z);
        assert tx + tl == tl + tx;
        SwapTail(a, tx, tl);
      } else {
        var r := s + [x];
        assert Insert(keys, cmp, s, x) == r;
        assert r[..|r| - 1] == s;
        assert TiedWith(keys, cmp, r, z) == TiedWith(keys, cmp, s, z) + tx;
      }
    }
  }

  /**
   * The sort is stable: the tuples tied with any `z` keep their input order
   * in the result.
   */
  lemma {:induction false} SortStable(keys: seq<SortKey>, cmp: Comparator, s: seq<Tuple>, z: Tuple)
    requires TotalPreorder(cmp)
    ensures TiedWith(keys, cmp, InsertionSorted(keys, cmp, s), z) == TiedWith(keys, cmp, s, z)
  {
    if s != [] {
      var n := |s| - 1;
      SortStable(keys, cmp, s[..n], z);
      InsertStable(keys, cmp, InsertionSorted(keys, cmp, s[..n]), s[n], z);
      TiedWithOne(keys, cmp, s[n], z);
    }
  }

  /** The tuples tied with `z` are those of `s` that are tied with it. */
  lemma {:induction false} TiedWithMembers(keys: seq<SortKey>, cmp: Comparator, s: seq<Tuple>, z: Tuple, y: Tuple)
    ensures y in TiedWith(keys, cmp, s, z) <==> y in s && Tied(keys, cmp, y, z)
  {
    if s != [] {
      var n := |s| - 1;
      TiedWithMembers(keys, cmp, s[..n], z, y);
      assert s == s[..n] + [s[n]];
    }
  }

  lemma AppendCancel(x: seq<Tuple>, y: seq<Tuple>, e: seq<Tuple>)
    requires x + e == y + e
    ensures x == y
  {
    assert x == (x + e)[..|x|];
    assert y == (y + e)[..|y|];
  }

  lemma SnocInjective(x: seq<Tuple>, a: Tuple, y: seq<Tuple>, b: Tuple)
    requires x + [a] == y + [b]
    ensures x == y && a == b
  {
    assert a == (x + [a])[|x|];
    assert b == (y + [b])[|y|];
    AppendCancel(x, y, [a]);
  }

  /** The last tuple of a sorted sequence comes before none of its tuples. */
  lemma SortedLastMaximal(keys: seq<SortKey>, cmp: Comparator, p: seq<Tuple>, y: Tuple)
    requires TotalPreorder(cmp) && p != [] && Sorted(keys, cmp, p) && y in p
    ensures !Less(keys, cmp, p[|p| - 1], y)
  {
    var k :| 0 <= k < |p| && p[k] == y;
    if k == |p| - 1 {
      TiedSelf(keys, cmp, y);
    }
  }

  /** Sequences that agree on every group of tied tuples hold the same tuples. */
  lemma AgreeingMembers(keys: seq<SortKey>, cmp: Comparator, p: seq<Tuple>, q: seq<Tuple>, y: Tuple)
    requires TotalPreorder(cmp)
    requires forall z :: TiedWith(keys, cmp, p, z) == TiedWith(keys, cmp, q, z)
    requires y in p
    ensures y in q
  {
    TiedSelf(keys, cmp, y);
    TiedWithMembers(keys, cmp, p, y, y);
    TiedWithMembers(keys, cmp, q, y, y);
  }

  /** Two sorted sequences that agree on every group of tied tuples end with the same tuple. */
  lemma SameLast(keys: seq<SortKey>, cmp: Comparator, p: seq<Tuple>, q: seq<Tuple>)
    requires TotalPreorder(cmp) && p != [] && q != []
    requires Sorted(keys, cmp, p) && Sorted(keys, cmp, q)
    requires forall z :: TiedWith(keys, cmp, p, z) == TiedWith(keys, cmp, q, z)
    ensures p[|p| - 1] == q[|q| - 1]
  {
    var n, m := |p| - 1, |q| - 1;
    var a, b := p[n], q[m];
    AgreeingMembers(keys, cmp, p, q, a);
    AgreeingMembers(keys, cmp, q, p, b);
    SortedLastMaximal(keys, cmp, q, a);
    SortedLastMaximal(keys, cmp, p, b);
    TiedSelf(keys, cmp, a);
    assert TiedWith(keys, cmp, p, a) == TiedWith(keys, cmp, p[..n], a) + [a];
    assert TiedWith(keys, cmp, q, a) == TiedWith(keys, cmp, q[..m], a) + [b];
    SnocInjective(TiedWith(keys, cmp, p[..n], a), a, TiedWith(keys, cmp, q[..m], a), b);
  }

  /** Dropping the same last tuple keeps the agreement. */
  lemma PrefixesAgree(keys: seq<SortKey>, cmp: Comparator, p: seq<Tuple>, q: seq<Tuple>, a: Tuple)
    requires forall z :: TiedWith(keys, cmp, p + [a], z) == TiedWith(keys, cmp, q + [a], z)
    ensures forall z :: TiedWith(keys, cmp, p, z) == TiedWith(keys, cmp, q, z)
  {
    assert (p + [a])[..|p|] == p && (q + [a])[..|q|] == q;
    forall z ensures TiedWith(keys, cmp, p, z) == TiedWith(keys, cmp, q, z) {
      assert TiedWith(keys, cmp, p + [a], z) == TiedWith(keys, cmp, q + [a], z);
      AppendCancel(TiedWith(keys, cmp, p, z), TiedWith(keys, cmp, q, z),
                   if Tied(keys, cmp, a, z) then [a] else []);
    }
  }

  /** Two sorted sequences that agree on the order of every group of tied tuples are equal. */
  lemma {:induction false} SortedUnique(keys: seq<SortKey>, cmp: Comparator, p: seq<Tuple>, q: seq<Tuple>)
    requires TotalPreorder(cmp)
    requires Sorted(keys, cmp, p) && Sorted(keys, cmp, q)
    requires forall z :: TiedWith(keys, cmp, p, z) == TiedWith(keys, cmp, q, z)
    ensures p == q
    decreases |p| + |q|
  {
    if p == [] && q == [] {
      return;
    }
    if p == [] {
      AgreeingMembers(keys, cmp, q, p, q[0]);
      assert false;
    }
    if q == [] {
      AgreeingMembers(keys, cmp, p, q, p[0]);
      assert false;
    }
    var n, m := |p| - 1, |q| - 1;
    SameLast(keys, cmp, p, q);
    assert p == p[..n] + [p[n]] && q == q[..m] + [p[n]];
    PrefixesAgree(keys, cmp, p[..n], q[..m], p[n]);
    assert Sorted(keys, cmp, p[..n]) && Sorted(keys, cmp, q[..m]);
    SortedUnique(keys, cmp, p[..n], q[..m]);
  }

  /**
   * The stable sort is determined by its properties: any sorted sequence
   * that keeps every group of tied tuples in input order is the result of
   * `InsertionSorted`, so any stable sorting algorithm yields it.
   */
  lemma StableSortUnique(keys: seq<SortKey>, cmp: Comparator, s: seq<Tuple>, r: seq<Tuple>)
    requires TotalPreorder(cmp) && Sorted(keys, cmp, r)
    requires forall z :: TiedWith(keys, cmp, r, z) == TiedWith(keys, cmp, s, z)
    ensures r == InsertionSorted(keys, cmp, s)
  {
    var sorted := InsertionSorted(keys, cmp, s);
    SortSorts(keys, cmp, s);
    forall z ensures TiedWith(keys, cmp, r, z) == TiedWith(keys, cmp, sorted, z) {
      SortStable(keys, cmp, s, z);
    }
    SortedUnique(keys, cmp, r, sorted);
  }

  // ---------------------------------------------------------------------------
  // The in-place sort

  /** Passing a tuple that `x` comes before moves it behind the insertion point. */
  lemma InsertShift(keys: seq<SortKey>, cmp: Comparator, t: seq<Tuple>, x: Tuple, j: nat)
    requires 0 < j <= |t| && Less(keys, cmp, x, t[j - 1])
    requires Insert(keys, cmp, t, x) == Insert(keys, cmp, t[..j], x) + t[j..]
    ensures Insert(keys, cmp, t, x) == Insert(keys, cmp, t[..j - 1], x) + t[j - 1..]
  {
    assert t[..j][..j - 1] == t[..j - 1];
    assert t[j - 1..] == [t[j - 1]] + t[j..];
  }

  /** Where the scan stops, `x` goes. */
  lemma InsertStop(keys: seq<SortKey>, cmp: Comparator, t: seq<Tuple>, x: Tuple, j: nat)
    requires j <= |t| && (j > 0 ==> !Less(keys, cmp, x, t[j - 1]))
    ensures Insert(keys, cmp, t[..j], x) == t[..j] + [x]
  {
    if j > 0 {
      assert t[..j][..j - 1] == t[..j - 1];
    }
  }

  /**
   * The inner loop: moves the tuples of the sorted prefix `a[..i]` that `x`
   * comes before one place right, from the back, and returns the slot left free.
   */
  method ShiftGreater(keys: seq<SortKey>, cmp: Comparator, w: nat, a: array<Tuple>, i: nat, x: Tuple) returns (j: nat)
    requires KeysBelow(keys, w) && i < a.Length && Widths(a[..i], w) && |x| == w
    modifies a
    ensures j <= i
    ensures forall k :: 0 <= k < j ==> a[k] == old(a[k])
    ensures forall k :: j < k <= i ==> a[k] == old(a[k - 1])
    ensures forall k :: i < k < a.Length ==> a[k] == old(a[k])
    ensures Insert(keys, cmp, old(a[..i]), x) == old(a[..i])[..j] + [x] + old(a[..i])[j..]
  {
    ghost var t := a[..i];
    j := i;
    assert t[..j] == t && t[j..] == [];
    while j > 0
      invariant 0 <= j <= i
      invariant forall k :: 0 <= k < j ==> a[k] == t[k]
      invariant forall k :: j < k <= i ==> a[k] == t[k - 1]
      invariant forall k :: i < k < a.Length ==> a[k] == old(a[k])
      invariant Insert(keys, cmp, t, x) == Insert(keys, cmp, t[..j], x) + t[j..]
    {
      assert |a[j - 1]| == w by {
        assert a[j - 1] == t[j - 1];
      }
      var less := CompareTuples(keys, cmp, x, a[j - 1]);
      if !less {
        break;
      }
      InsertShift(keys, cmp, t, x, j);
      a[j] := a[j - 1];
      j := j - 1;
    }
    InsertStop(keys, cmp, t, x, j);
  }

  /** Inserts `a[i]` into the sorted prefix `a[..i]`, shifting the larger tuples one place right. */
  method InsertInPlace(keys: seq<SortKey>, cmp: Comparator, w: nat, a: array<Tuple>, i: nat)
    requires KeysBelow(keys, w) && Widths(a[..], w) && i < a.Length
    modifies a
    ensures a[..i + 1] == Insert(keys, cmp, old(a[..i]), old(a[i]))
    ensures forall k :: i < k < a.Length ==> a[k] == old(a[k])
  {
    ghost var t := a[..i];
    var x := a[i];
    assert Widths(t, w) && |x| == w;
    var j := ShiftGreater(keys, cmp, w, a, i, x);
    a[j] := x;
    assert a[..i + 1] == t[..j] + [x] + t[j..];
  }

  /**
   * Sorts the array in place, stably: afterwards it holds the stable sort
   * of its old contents.
   */
  method StableSort(keys: seq<SortKey>, cmp: Comparator, w: nat, a: array<Tuple>)
    requires KeysBelow(keys, w) && Widths(a[..], w)
    modifies a
    ensures a[..] == InsertionSorted(keys, cmp, old(a[..]))
  {
    ghost var s := a[..];
    var i := 0;
    while i < a.Length
      invariant 0 <= i <= a.Length
      invariant Widths(a[..], w)
      invariant a[..i] == InsertionSorted(keys, cmp, s[..i])
      invariant forall k :: i <= k < a.Length ==> a[k] == s[k]
    {
      assert s[..i + 1][..i] == s[..i];
      assert a[i] == s[i];
      InsertInPlace(keys, cmp, w, a, i);
      assert Widths(a[..], w) by {
        SortWidths(keys, cmp, s[..i + 1], w);
        forall k | 0 <= k < a.Length ensures |a[k]| == w {
          if k <= i { assert a[k] == a[..i + 1][k]; }
        }
      }
      i := i + 1;
    }
    assert s[..i] == s;
  }

  /**
   * The executor's `order_tuples`: resolves the order items against the
   * joined schema, then sorts the tuples in place. A syntax error leaves
   * the tuples as they were.
   */
  method OrderTuples(schema: Schema, relations: seq<string>, orders: seq<OrderBy>, cmp: Comparator, a: array<Tuple>)
    returns (rc: Rc)
    requires Widths(a[..], |schema|)
    modifies a
    ensures rc == Success <==> OrderKeys(schema, relations, orders).Ok?
    ensures rc != Success ==> rc == SqlSyntax && a[..] == old(a[..])
    ensures rc == Success ==> a[..] == InsertionSorted(OrderKeys(schema, relations, orders).value, cmp, old(a[..]))
  {
    var keys;
    rc, keys := ResolveOrders(schema, relations, orders);
    if rc != Success {
      return;
    }
    StableSort(keys, cmp, |schema|, a);
  }
}
