/*
 * Join predicates between the tuples built so far and the next table
 * (`TupleFilter` in sql/executor/select_executor.cpp).
 *
 * Only column-vs-column conditions take part. `BindPair` says what one
 * condition becomes against a left and a right schema, `JoinBindings` what
 * the whole initialisation leaves in the filter, and `ConsHolds` when a bound
 * condition accepts a pair of tuples. The class keeps the source's vector of
 * bindings and is proved against these functions.
 */
module TupleFilters {
  import opened Common
  import opened Schemas
  import opened ConditionFilters

  /** A bound join condition: the condition, the common column type, and a position on each side. */
  datatype TupleCons = TupleCons(condition: Condition, ctype: AttrType, leftPos: nat, rightPos: nat)

  /** What one condition becomes at initialisation. */
  datatype PairBinding = Skipped | Mismatch | BoundTo(cons: TupleCons)

  /**
   * A column-vs-column condition is looked up on the right first, then on
   * the left; a side that is not found drops the condition, and two columns
   * of different types are a type mismatch.
   */
  function BindPair(left: Schema, right: Schema, c: Condition): (b: PairBinding)
    requires QualifiedPair(c)
    ensures b.BoundTo? ==> b.cons.condition == c && IsAttrPair(c)
    ensures b.BoundTo? ==>
      b.cons.leftPos == IndexOfField(left, c.lhs.relation.value, c.lhs.attribute)
      && b.cons.rightPos == IndexOfField(right, c.rhs.relation.value, c.rhs.attribute)
      && left[b.cons.leftPos].ftype == b.cons.ctype == right[b.cons.rightPos].ftype
    ensures b.Mismatch? <==> (IsAttrPair(c)
      && IndexOfField(right, c.rhs.relation.value, c.rhs.attribute) != -1
      && IndexOfField(left, c.lhs.relation.value, c.lhs.attribute) != -1
      && left[IndexOfField(left, c.lhs.relation.value, c.lhs.attribute)].ftype
         != right[IndexOfField(right, c.rhs.relation.value, c.rhs.attribute)].ftype)
  {
    if !IsAttrPair(c) then Skipped
    else
      var rp := IndexOfField(right, c.rhs.relation.value, c.rhs.attribute);
      if rp == -1 then Skipped
      else
        var lp := IndexOfField(left, c.lhs.relation.value, c.lhs.attribute);
        if lp == -1 then Skipped
        else if left[lp].ftype != right[rp].ftype then Mismatch
        else BoundTo(TupleCons(c, left[lp].ftype, lp, rp))
  }

  predicate AllQualified(conds: seq<Condition>) {
    forall k :: 0 <= k < |conds| ==> QualifiedPair(conds[k])
  }

  /**
   * The result of initialising an empty filter: the conditions are taken in
   * order, and a mismatch stops the work, keeping what was bound before it.
   */
  function JoinBindings(left: Schema, right: Schema, conds: seq<Condition>): (r: (Rc, seq<TupleCons>))
    requires AllQualified(conds)
    ensures r.0 == Success || r.0 == SchemaFieldTypeMismatch
  {
    if conds == [] then (Success, [])
    else
      var n := |conds| - 1;
      assert AllQualified(conds[..n]);
      var (rc, bs) := JoinBindings(left, right, conds[..n]);
      if rc != Success then (rc, bs)
      else
        match BindPair(left, right, conds[n])
        case Skipped => (Success, bs)
        case Mismatch => (SchemaFieldTypeMismatch, bs)
        case BoundTo(tc) => (Success, bs + [tc])
  }

  /**
   * Every binding made comes from a column-vs-column condition of the list,
   * at the first positions of its two columns, which have the same type.
   */
  lemma {:induction false} JoinBindingsSound(left: Schema, right: Schema, conds: seq<Condition>)
    requires AllQualified(conds)
    ensures forall k :: 0 <= k < |JoinBindings(left, right, conds).1| ==>
      var tc := JoinBindings(left, right, conds).1[k];
      tc.condition in conds && BindPair(left, right, tc.condition) == BoundTo(tc)
  {
    if conds != [] {
      var n := |conds| - 1;
      assert AllQualified(conds[..n]);
      JoinBindingsSound(left, right, conds[..n]);
      assert forall c :: c in conds[..n] ==> c in conds;
    }
  }

  /** The bindings of the conditions that bind, in order. */
  function Bound(left: Schema, right: Schema, conds: seq<Condition>): seq<TupleCons>
    requires AllQualified(conds)
  {
    if conds == [] then []
    else
      var n := |conds| - 1;
      assert AllQualified(conds[..n]);
      var bs := Bound(left, right, conds[..n]);
      match BindPair(left, right, conds[n])
      case BoundTo(tc) => bs + [tc]
      case _ => bs
  }

  /**
   * Initialisation succeeds exactly when no column-vs-column condition has
   * both sides found with different types, and then it binds every condition
   * that binds, in order.
   */
  lemma {:induction false} JoinBindingsSuccess(left: Schema, right: Schema, conds: seq<Condition>)
    requires AllQualified(conds)
    ensures JoinBindings(left, right, conds).0 == Success <==>
      forall k :: 0 <= k < |conds| ==> !BindPair(left, right, conds[k]).Mismatch?
    ensures JoinBindings(left, right, conds).0 == Success ==>
      JoinBindings(left, right, conds).1 == Bound(left, right, conds)
  {
    if conds != [] {
      var n := |conds| - 1;
      assert AllQualified(conds[..n]);
      JoinBindingsSuccess(left, right, conds[..n]);
      assert forall k :: 0 <= k < n ==> conds[..n][k] == conds[k];
    }
  }

  /** A mismatch reports the conditions bound before the first mismatching one, and no more. */
  lemma {:induction false} JoinBindingsMismatch(left: Schema, right: Schema, conds: seq<Condition>, i: nat)
    requires AllQualified(conds)
    requires i < |conds| && BindPair(left, right, conds[i]).Mismatch?
    requires forall k :: 0 <= k < i ==> !BindPair(left, right, conds[k]).Mismatch?
    ensures AllQualified(conds[..i])
    ensures JoinBindings(left, right, conds) == (SchemaFieldTypeMismatch, Bound(left, right, conds[..i]))
    decreases |conds|
  {
    assert AllQualified(conds[..i]);
    var n := |conds| - 1;
    assert AllQualified(conds[..n]);
    if i < n {
      assert conds[..n][..i] == conds[..i];
      JoinBindingsMismatch(left, right, conds[..n], i);
    } else {
      assert conds[..n] == conds[..i];
      JoinBindingsSuccess(left, right, conds[..n]);
    }
  }

  // ---------------------------------------------------------------------------
  // Evaluation

  /** Three-way comparison of two values of the same type; not part of this model, so a parameter. */
  type Comparator = (Value, Value) -> int

  predicate ConsFits(tc: TupleCons, l: Tuple, r: Tuple) {
    tc.leftPos < |l| && tc.rightPos < |r|
  }

  /**
   * A bound condition accepts a pair when both values have the same type,
   * neither is NULL, and the comparison satisfies the operator.
   */
  predicate ConsHolds(tc: TupleCons, l: Tuple, r: Tuple, cmp: Comparator)
    requires tc.condition.op.IsOrdinary() && ConsFits(tc, l, r)
  {
    var lv := l[tc.leftPos];
    var rv := r[tc.rightPos];
    TypeOf(lv) == TypeOf(rv) && !lv.NullVal? && !rv.NullVal?
    && JudgeCmpResult(tc.condition.op, cmp(lv, rv))
  }

  /** The first position in `s` of `table.field` and its type, by the scan the filter does inline. */
  method FindColumn(s: Schema, table: string, field: string) returns (pos: int, t: AttrType)
    ensures pos == IndexOfField(s, table, field)
    ensures pos == -1 ==> t == Undefined
    ensures pos != -1 ==> t == s[pos].ftype
  {
    pos, t := -1, Undefined;
    var i := 0;
    while i < |s|
      invariant 0 <= i <= |s|
      invariant forall k :: 0 <= k < i ==> !Names(s[k], table, field)
    {
      if s[i].table == table && s[i].field == field {
        pos, t := i, s[i].ftype;
        return;
      }
      i := i + 1;
    }
  }

  /** The body of the initialisation loop for one condition: both lookups and the type check. */
  method BindCondition(left: Schema, right: Schema, c: Condition) returns (b: PairBinding)
    requires QualifiedPair(c)
    ensures b == BindPair(left, right, c)
  {
    if c.lhs.AttrOperand? && c.rhs.AttrOperand? {
      var rightPos, rightType := FindColumn(right, c.rhs.relation.value, c.rhs.attribute);
      if rightPos == -1 {
        return Skipped;
      }
      var leftPos, leftType := FindColumn(left, c.lhs.relation.value, c.lhs.attribute);
      if leftPos == -1 {
        return Skipped;
      }
      if leftType != rightType {
        return Mismatch;
      }
      return BoundTo(TupleCons(c, leftType, leftPos, rightPos));
    }
    return Skipped;
  }

  class TupleFilter {
    var consVector: seq<TupleCons>

    constructor ()
      ensures consVector == []
    {
      consVector := [];
    }

    /** Every bound operator is one of the six that compare. */
    predicate Valid()
      reads this
    {
      forall k :: 0 <= k < |consVector| ==> consVector[k].condition.op.IsOrdinary()
    }

    predicate Fits(l: Tuple, r: Tuple)
      reads this
    {
      forall k :: 0 <= k < |consVector| ==> ConsFits(consVector[k], l, r)
    }

    /**
     * Binds the column-vs-column conditions of `conds` between the `left`
     * and `right` schemas, appending one binding per condition that binds.
     */
    method Init(left: Schema, right: Schema, conds: seq<Condition>) returns (rc: Rc)
      requires AllQualified(conds)
      requires forall k :: 0 <= k < |conds| ==> WellFormedCondition(conds[k])
      requires Valid()
      modifies this
      ensures rc == JoinBindings(left, right, conds).0
      ensures consVector == old(consVector) + JoinBindings(left, right, conds).1
      ensures Valid()
    {
      var i := 0;
      ghost var bound: seq<TupleCons> := [];
      while i < |conds|
        invariant 0 <= i <= |conds|
        invariant AllQualified(conds[..i])
        invariant JoinBindings(left, right, conds[..i]) == (Success, bound)
        invariant consVector == old(consVector) + bound
        invariant Valid()
      {
        JoinBindingsStep(left, right, conds, i);
        var b := BindCondition(left, right, conds[i]);
        match b {
          case Mismatch =>
            JoinBindingsMismatchStops(left, right, conds, i + 1);
            return SchemaFieldTypeMismatch;
          case BoundTo(tc) =>
            WellFormedPairIsOrdinary(conds[i]);
            consVector := consVector + [tc];
            bound := bound + [tc];
          case Skipped =>
        }
        i := i + 1;
      }
      assert conds[..i] == conds;
      rc := Success;
    }

    /** Accepts the pair when every bound condition holds; stops at the first that does not. */
    method Filter(l: Tuple, r: Tuple, cmp: Comparator) returns (ok: bool)
      requires Valid() && Fits(l, r)
      ensures ok <==> forall k :: 0 <= k < |consVector| ==> ConsHolds(consVector[k], l, r, cmp)
    {
      var k := 0;
      while k < |consVector|
        invariant 0 <= k <= |consVector|
        invariant forall j :: 0 <= j < k ==> ConsHolds(consVector[j], l, r, cmp)
      {
        var tc := consVector[k];
        var lv := l[tc.leftPos];
        var rv := r[tc.rightPos];
        if TypeOf(lv) != TypeOf(rv) || lv.NullVal? || rv.NullVal? {
          return false;
        }
        if !JudgeCmpResult(tc.condition.op, cmp(lv, rv)) {
          return false;
        }
        k := k + 1;
      }
      return true;
    }
  }

  /** Initialising over one more condition adds that condition's outcome. */
  lemma JoinBindingsStep(left: Schema, right: Schema, conds: seq<Condition>, i: nat)
    requires AllQualified(conds) && i < |conds|
    ensures AllQualified(conds[..i]) && AllQualified(conds[..i + 1])
    ensures JoinBindings(left, right, conds[..i]).0 == Success && BindPair(left, right, conds[i]).Skipped? ==>
      JoinBindings(left, right, conds[..i + 1]) == JoinBindings(left, right, conds[..i])
    ensures JoinBindings(left, right, conds[..i]).0 == Success && BindPair(left, right, conds[i]).Mismatch? ==>
      JoinBindings(left, right, conds[..i + 1]) == (SchemaFieldTypeMismatch, JoinBindings(left, right, conds[..i]).1)
    ensures JoinBindings(left, right, conds[..i]).0 == Success && BindPair(left, right, conds[i]).BoundTo? ==>
      JoinBindings(left, right, conds[..i + 1]) ==
        (Success, JoinBindings(left, right, conds[..i]).1 + [BindPair(left, right, conds[i]).cons])
  {
    assert conds[..i + 1][..i] == conds[..i];
    assert AllQualified(conds[..i]);
    assert AllQualified(conds[..i + 1]);
  }

  /** A prefix that ends in a mismatch decides the result of the whole list. */
  lemma {:induction false} JoinBindingsMismatchStops(left: Schema, right: Schema, conds: seq<Condition>, k: nat)
    requires AllQualified(conds) && k <= |conds|
    requires AllQualified(conds[..k]) && JoinBindings(left, right, conds[..k]).0 != Success
    ensures JoinBindings(left, right, conds) == JoinBindings(left, right, conds[..k])
    decreases |conds| - k
  {
    if k < |conds| {
      assert conds[..k + 1][..k] == conds[..k];
      assert AllQualified(conds[..k + 1]);
      JoinBindingsMismatchStops(left, right, conds, k + 1);
    } else {
      assert conds[..k] == conds;
    }
  }
  /**
   * A column-vs-column condition whose right side names no column of the
   * right schema adds nothing: it is dropped even when its left side names a
   * column of the right table and its right side one of the left tables.
   */
  lemma UnfoundRightSideDropped(left: Schema, right: Schema, conds: seq<Condition>, c: Condition)
    requires AllQualified(conds + [c]) && IsAttrPair(c) && c.rhs.relation.Some?
    requires IndexOfField(right, c.rhs.relation.value, c.rhs.attribute) == -1
    ensures JoinBindings(left, right, conds + [c]) == JoinBindings(left, right, conds)
  {
    assert (conds + [c])[..|conds|] == conds;
  }

  /**
   * Joining `t1` with `t2`: the condition `t1.id = t2.id` is bound, while the
   * same condition written `t2.id = t1.id` is dropped, so that join keeps
   * every pair of tuples.
   */
  lemma ReversedConditionDropped()
    ensures var left := [TupleField(Ints, "t1", "id", None)];
      var right := [TupleField(Ints, "t2", "id", None)];
      var forward := Condition(AttrOperand(Some("t1"), "id"), EqualTo, AttrOperand(Some("t2"), "id"));
      var reversed := Condition(AttrOperand(Some("t2"), "id"), EqualTo, AttrOperand(Some("t1"), "id"));
      JoinBindings(left, right, [forward]) == (Success, [TupleCons(forward, Ints, 0, 0)])
      && JoinBindings(left, right, [reversed]) == (Success, [])
  {
    var left := [TupleField(Ints, "t1", "id", None)];
    var right := [TupleField(Ints, "t2", "id", None)];
    var forward := Condition(AttrOperand(Some("t1"), "id"), EqualTo, AttrOperand(Some("t2"), "id"));
    var reversed := Condition(AttrOperand(Some("t2"), "id"), EqualTo, AttrOperand(Some("t1"), "id"));
    assert Names(left[0], "t1", "id") && Names(right[0], "t2", "id");
    assert BindPair(left, right, forward) == BoundTo(TupleCons(forward, Ints, 0, 0));
    assert [forward][..0] == [];
    assert JoinBindings(left, right, []) == (Success, []);
    assert [] + [TupleCons(forward, Ints, 0, 0)] == [TupleCons(forward, Ints, 0, 0)];
    assert !Names(right[0], "t1", "id");
    UnfoundRightSideDropped(left, right, [], reversed);
  }

}
