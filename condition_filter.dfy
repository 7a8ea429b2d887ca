/*
 * Single-table predicates (storage/common/condition_filter.cpp).
 *
 * A `DefaultConditionFilter` binds one condition to the columns of one
 * table and then evaluates it on stored records; a
 * `CompositeConditionFilter` is the conjunction of several. The pure
 * functions `Bind`, `BindAll` and `ValueCompare` state what binding and
 * evaluation compute; the classes keep the source's fields and are proved
 * against them.
 */
module ConditionFilters {
  import opened Common

  // ---------------------------------------------------------------------------
  // Comparison

  /** Reads a three-way comparison result through one of the six ordinary operators. */
  function JudgeCmpResult(op: CompOp, cmp: int): (r: bool)
    requires op.IsOrdinary()
    ensures r <==> RealRelation(op, cmp as real, 0.0)
  {
    match op
    case EqualTo => 0 == cmp
    case LessEqual => cmp <= 0
    case NotEqual => cmp != 0
    case LessThan => cmp < 0
    case GreatEqual => cmp >= 0
    case GreatThan => cmp > 0
  }

  /** The relation each ordinary operator names, stated directly on two reals. */
  predicate RealRelation(op: CompOp, x: real, y: real)
    requires op.IsOrdinary()
  {
    match op
    case EqualTo => x == y
    case LessEqual => x <= y
    case NotEqual => x != y
    case LessThan => x < y
    case GreatEqual => x >= y
    case GreatThan => x > y
  }

  /** Judging a three-way comparison of two reals is the relation the operator names. */
  lemma JudgeAgreesWithOrder(op: CompOp, x: real, y: real)
    requires op.IsOrdinary()
    ensures JudgeCmpResult(op, NumCmp(x, y)) == RealRelation(op, x, y)
  {
  }

  /** The operator whose outcome is always the opposite one. */
  function Negated(op: CompOp): CompOp
    requires op.IsOrdinary()
  {
    match op
    case EqualTo => NotEqual
    case NotEqual => EqualTo
    case LessThan => GreatEqual
    case GreatEqual => LessThan
    case LessEqual => GreatThan
    case GreatThan => LessEqual
  }

  lemma JudgeNegated(op: CompOp, cmp: int)
    requires op.IsOrdinary()
    ensures Negated(op).IsOrdinary()
    ensures JudgeCmpResult(Negated(op), cmp) == !JudgeCmpResult(op, cmp)
  {
  }

  /** Value types that `ValueCompare` can order against each other. */
  predicate Comparable(a: AttrType, b: AttrType) {
    (IsStringType(a) && IsStringType(b)) || (IsNumericType(a) && IsNumericType(b))
  }

  /**
   * The operand combinations `ValueCompare` is defined on: the source falls
   * through to a LOG_PANIC for NO_OP, and for a null test on two non-NULL
   * values, which the parser never produces.
   */
  predicate NoPanic(lhs: Value, rhs: Value, op: CompOp) {
    op != NoOp && (op.IsNullTest() ==> lhs.NullVal? || rhs.NullVal?)
  }

  /** Evaluates `lhs op rhs` with the NULL rules of IS NULL / IS NOT NULL. */
  function ValueCompare(lhs: Value, rhs: Value, op: CompOp): (r: bool)
    requires NoPanic(lhs, rhs, op)
    ensures op.IsOrdinary() && (lhs.NullVal? || rhs.NullVal?) ==> !r
    ensures op.IsOrdinary() && !Comparable(TypeOf(lhs), TypeOf(rhs)) ==> !r
    ensures op == IsNull ==> (r <==> lhs.NullVal? && rhs.NullVal?)
    ensures op == NotNull ==> (r <==> lhs.NullVal? != rhs.NullVal?)
  {
    if (op == IsNull && lhs.NullVal? && rhs.NullVal?)
       || (op == NotNull && (lhs.NullVal? != rhs.NullVal?)) then
      true
    else if IsStringType(TypeOf(lhs)) && IsStringType(TypeOf(rhs)) then
      JudgeCmpResult(op, StrCmp(StrOf(lhs), StrOf(rhs)))
    else if IsNumericType(TypeOf(lhs)) && IsNumericType(TypeOf(rhs)) then
      JudgeCmpResult(op, NumCmp(NumOf(lhs), NumOf(rhs)))
    else
      false
  }

  /** INTS and FLOATS compare with each other as numbers. */
  lemma ValueCompareNumeric(lhs: Value, rhs: Value, op: CompOp)
    requires op.IsOrdinary()
    requires IsNumericType(TypeOf(lhs)) && IsNumericType(TypeOf(rhs))
    ensures ValueCompare(lhs, rhs, op) == RealRelation(op, NumOf(lhs), NumOf(rhs))
  {
    JudgeAgreesWithOrder(op, NumOf(lhs), NumOf(rhs));
  }

  /** CHARS and DATES are equal, in any combination, exactly when their characters are. */
  lemma ValueCompareStringEquality(lhs: Value, rhs: Value)
    requires IsStringType(TypeOf(lhs)) && IsStringType(TypeOf(rhs))
    ensures ValueCompare(lhs, rhs, EqualTo) <==> StrOf(lhs) == StrOf(rhs)
    ensures ValueCompare(lhs, rhs, NotEqual) <==> StrOf(lhs) != StrOf(rhs)
  {
    StrCmpEqual(StrOf(lhs), StrOf(rhs));
  }

  /** Swapping the operands of a string comparison mirrors the operator. */
  lemma ValueCompareStringMirror(lhs: Value, rhs: Value)
    requires IsStringType(TypeOf(lhs)) && IsStringType(TypeOf(rhs))
    ensures ValueCompare(lhs, rhs, LessThan) == ValueCompare(rhs, lhs, GreatThan)
    ensures ValueCompare(lhs, rhs, LessEqual) == ValueCompare(rhs, lhs, GreatEqual)
  {
    StrCmpAntisymmetric(StrOf(lhs), StrOf(rhs));
  }

  // ---------------------------------------------------------------------------
  // Binding a condition to one table

  /** One bound side: a column of the table, a literal, or not yet bound. */
  datatype ConDesc = AttrDesc(field: FieldMeta) | ValueDesc(value: Value) | Unbound

  /** The five fields a bound filter holds. */
  datatype Binding = Binding(left: ConDesc, right: ConDesc, leftType: AttrType, rightType: AttrType, op: CompOp)

  predicate TypeInRange(t: AttrType) {
    TypeOrdinal(Undefined) < TypeOrdinal(t) <= TypeOrdinal(Dates)
  }

  predicate CompOpInRange(op: CompOp) {
    CompOpOrdinal(EqualTo) <= CompOpOrdinal(op) < CompOpOrdinal(NoOp)
  }

  /** The type rule of binding: equal types, a NULL on either side, or two numeric types. */
  predicate Compatible(lt: AttrType, rt: AttrType) {
    lt == rt || lt == Nulls || rt == Nulls || (IsNumericType(lt) && IsNumericType(rt))
  }

  /** The low-level initialisation: range checks on both types and on the operator. */
  function CheckBinding(l: ConDesc, r: ConDesc, lt: AttrType, rt: AttrType, op: CompOp): (res: Result<Binding>)
    ensures res.Err? <==> !TypeInRange(lt) || !TypeInRange(rt) || !CompOpInRange(op)
    ensures res.Err? ==> res.rc == InvalidArgument
    ensures res.Ok? ==> res.value == Binding(l, r, lt, rt, op)
  {
    if !TypeInRange(lt) || !TypeInRange(rt) || !CompOpInRange(op) then Err(InvalidArgument)
    else Ok(Binding(l, r, lt, rt, op))
  }

  /**
   * Resolves one side of a condition against the table's columns: a column
   * side becomes the first column of that name with its type, and fails
   * exactly when the table has no such column; a literal keeps its value
   * and its own type.
   */
  function ResolveSide(metas: seq<FieldMeta>, o: Operand): (r: Result<(ConDesc, AttrType)>)
    ensures r.Err? <==> o.AttrOperand? && forall m :: m in metas ==> m.name != o.attribute
    ensures r.Err? ==> r.rc == SchemaFieldMissing
    ensures r.Ok? && o.AttrOperand? ==>
      r.value.0.AttrDesc? && r.value.0.field in metas && r.value.0.field.name == o.attribute
      && r.value.1 == r.value.0.field.ftype
    ensures o.ValueOperand? ==> r == Ok((ValueDesc(o.value), TypeOf(o.value)))
  {
    match o
    case AttrOperand(_, name) =>
      (match FindFieldMeta(metas, name)
       case None => Err(SchemaFieldMissing)
       case Some(m) => Ok((AttrDesc(m), m.ftype)))
    case ValueOperand(v) => Ok((ValueDesc(v), TypeOf(v)))
  }

  /** A bound filter with both sides set and every field in range. */
  predicate ValidBinding(b: Binding) {
    b.left != Unbound && b.right != Unbound
    && TypeInRange(b.leftType) && TypeInRange(b.rightType) && CompOpInRange(b.op)
  }

  /** A null test of a bound filter has a NULL literal on one side. */
  predicate SafeBinding(b: Binding) {
    b.op.IsNullTest() ==> b.left == ValueDesc(NullVal) || b.right == ValueDesc(NullVal)
  }

  /** Binds `c` to a table whose columns are `metas`. */
  function Bind(metas: seq<FieldMeta>, c: Condition): (r: Result<Binding>)
    ensures r.Ok? ==> ValidBinding(r.value) && r.value.op == c.op
    ensures r.Ok? ==> Compatible(r.value.leftType, r.value.rightType)
    ensures r.Ok? && WellFormedCondition(c) ==> SafeBinding(r.value)
    ensures r.Err? ==> r.rc in {SchemaFieldMissing, SchemaFieldTypeMismatch, InvalidArgument}
  {
    match ResolveSide(metas, c.lhs)
    case Err(e) => Err(e)
    case Ok((l, lt)) =>
      match ResolveSide(metas, c.rhs)
      case Err(e) => Err(e)
      case Ok((r, rt)) =>
        if Compatible(lt, rt) then CheckBinding(l, r, lt, rt, c.op)
        else Err(SchemaFieldTypeMismatch)
  }

  /** A column side that names no column of the table makes binding fail with SCHEMA_FIELD_MISSING, and only that does. */
  lemma BindFieldMissing(metas: seq<FieldMeta>, c: Condition)
    ensures Bind(metas, c) == Err(SchemaFieldMissing) <==>
      ResolveSide(metas, c.lhs).Err? || ResolveSide(metas, c.rhs).Err?
    ensures c.lhs.AttrOperand? && (forall m :: m in metas ==> m.name != c.lhs.attribute) ==>
      Bind(metas, c) == Err(SchemaFieldMissing)
    ensures c.rhs.AttrOperand? && (forall m :: m in metas ==> m.name != c.rhs.attribute) ==>
      Bind(metas, c) == Err(SchemaFieldMissing)
  {
  }

  /** Once both sides resolve, binding fails with a type mismatch exactly when the types are incompatible. */
  lemma BindTypeRule(metas: seq<FieldMeta>, c: Condition)
    requires ResolveSide(metas, c.lhs).Ok? && ResolveSide(metas, c.rhs).Ok?
    ensures Bind(metas, c) == Err(SchemaFieldTypeMismatch) <==>
      !Compatible(ResolveSide(metas, c.lhs).value.1, ResolveSide(metas, c.rhs).value.1)
  {
  }

  /** A CHARS column is never bound against a DATES one, whichever side each is on. */
  lemma BindRejectsCharsAgainstDates(metas: seq<FieldMeta>, c: Condition)
    requires ResolveSide(metas, c.lhs).Ok? && ResolveSide(metas, c.rhs).Ok?
    requires {ResolveSide(metas, c.lhs).value.1, ResolveSide(metas, c.rhs).value.1} == {Chars, Dates}
    ensures Bind(metas, c) == Err(SchemaFieldTypeMismatch)
  {
  }

  /** When both sides resolve to compatible types, every field of the binding is stored. */
  lemma BindStoresFields(metas: seq<FieldMeta>, c: Condition)
    requires ResolveSide(metas, c.lhs).Ok? && ResolveSide(metas, c.rhs).Ok?
    requires Compatible(ResolveSide(metas, c.lhs).value.1, ResolveSide(metas, c.rhs).value.1)
    requires c.op != NoOp
    requires TypeInRange(ResolveSide(metas, c.lhs).value.1) && TypeInRange(ResolveSide(metas, c.rhs).value.1)
    ensures Bind(metas, c) == Ok(Binding(ResolveSide(metas, c.lhs).value.0, ResolveSide(metas, c.rhs).value.0,
                                         ResolveSide(metas, c.lhs).value.1, ResolveSide(metas, c.rhs).value.1, c.op))
  {
  }

  /** Binds every condition in order; the first failure's code is the result. */
  function BindAll(metas: seq<FieldMeta>, cs: seq<Condition>): (r: Result<seq<Binding>>)
    ensures r.Ok? ==> |r.value| == |cs|
    ensures r.Err? ==> r.rc in {SchemaFieldMissing, SchemaFieldTypeMismatch, InvalidArgument}
  {
    if cs == [] then Ok([])
    else
      match BindAll(metas, cs[..|cs| - 1])
      case Err(e) => Err(e)
      case Ok(bs) =>
        match Bind(metas, cs[|cs| - 1])
        case Err(e) => Err(e)
        case Ok(b) => Ok(bs + [b])
  }

  /** A successful list binding holds each condition's own binding at its position. */
  lemma {:induction false} BindAllElements(metas: seq<FieldMeta>, cs: seq<Condition>)
    ensures BindAll(metas, cs).Ok? ==>
      forall i :: 0 <= i < |cs| ==> Bind(metas, cs[i]) == Ok(BindAll(metas, cs).value[i])
  {
    if cs != [] && BindAll(metas, cs).Ok? {
      var n := |cs| - 1;
      BindAllElements(metas, cs[..n]);
      assert forall i :: 0 <= i < n ==> cs[..n][i] == cs[i];
    }
  }

  /** Binding a list fails exactly when some condition fails to bind. */
  lemma BindAllFails(metas: seq<FieldMeta>, cs: seq<Condition>)
    ensures BindAll(metas, cs).Err? <==> exists i :: 0 <= i < |cs| && Bind(metas, cs[i]).Err?
  {
    BindAllFirstError(metas, cs);
    BindAllElements(metas, cs);
  }

  /** A failing list binding fails with the code of its first failing condition. */
  lemma {:induction false} BindAllFirstError(metas: seq<FieldMeta>, cs: seq<Condition>)
    ensures BindAll(metas, cs).Err? ==>
      exists i :: 0 <= i < |cs| && Bind(metas, cs[i]) == Err(BindAll(metas, cs).rc)
        && forall j :: 0 <= j < i ==> Bind(metas, cs[j]).Ok?
  {
    if cs != [] {
      var n := |cs| - 1;
      var init := cs[..n];
      BindAllFirstError(metas, init);
      if BindAll(metas, init).Err? {
        assert BindAll(metas, cs) == BindAll(metas, init);
        var i :| 0 <= i < n && Bind(metas, init[i]) == Err(BindAll(metas, init).rc)
          && forall j :: 0 <= j < i ==> Bind(metas, init[j]).Ok?;
        assert forall j :: 0 <= j <= i ==> init[j] == cs[j];
        assert Bind(metas, cs[i]) == Err(BindAll(metas, cs).rc);
      } else if Bind(metas, cs[n]).Err? {
        assert BindAll(metas, cs) == Err(Bind(metas, cs[n]).rc);
        BindAllElements(metas, init);
        forall j | 0 <= j < n ensures Bind(metas, cs[j]).Ok? {
          assert init[j] == cs[j];
        }
      }
    }
  }

  /** Binding one more condition extends a successful list binding, or fails with that condition's code. */
  lemma BindAllSnoc(metas: seq<FieldMeta>, cs: seq<Condition>, c: Condition, bs: seq<Binding>)
    requires BindAll(metas, cs) == Ok(bs)
    ensures Bind(metas, c).Ok? ==> BindAll(metas, cs + [c]) == Ok(bs + [Bind(metas, c).value])
    ensures Bind(metas, c).Err? ==> BindAll(metas, cs + [c]) == Err(Bind(metas, c).rc)
  {
    assert (cs + [c])[..|cs|] == cs;
  }

  /** Once a prefix fails to bind, the whole list fails with the same code. */
  lemma {:induction false} BindAllKeepsError(metas: seq<FieldMeta>, cs: seq<Condition>, k: nat)
    requires k <= |cs| && BindAll(metas, cs[..k]).Err?
    ensures BindAll(metas, cs) == BindAll(metas, cs[..k])
    decreases |cs| - k
  {
    if k < |cs| {
      assert cs[..k + 1][..k] == cs[..k];
      BindAllKeepsError(metas, cs, k + 1);
    } else {
      assert cs[..k] == cs;
    }
  }

  // ---------------------------------------------------------------------------
  // Reading a side from a record

  /** A stored record: its bytes. */
  datatype Record = Record(data: seq<bv8>)

  /**
   * How the bytes of a stored column are read, one reader per kind of
   * payload. Which reader applies is decided by the bound type alone.
   */
  datatype Decoder = Decoder(int32: seq<bv8> -> int, float: seq<bv8> -> real, text: seq<bv8> -> string)

  /**
   * The value of a column read as type `t`: the filter stores the bound
   * type as the value's type tag and points its data at the bytes, so the
   * value has type `t`; a column bound as NULLS reads as NULL.
   */
  function Decode(t: AttrType, bytes: seq<bv8>, dec: Decoder): (v: Value)
    requires t != Undefined
    ensures TypeOf(v) == t
    ensures t == Ints ==> v == IntVal(dec.int32(bytes))
    ensures t == Floats ==> v == FloatVal(dec.float(bytes))
    ensures (t == Chars || t == Dates) ==> StrOf(v) == dec.text(bytes)
  {
    match t
    case Ints => IntVal(dec.int32(bytes))
    case Floats => FloatVal(dec.float(bytes))
    case Chars => CharsVal(dec.text(bytes))
    case Dates => DateVal(dec.text(bytes))
    case Nulls => NullVal
  }

  predicate SideFits(d: ConDesc, rec: Record) {
    d.AttrDesc? ==> d.field.offset < |rec.data|
  }

  /**
   * The value of one side on a record: a literal as it is; a nullable column
   * is NULL when its indicator byte is set and is read after that byte
   * otherwise; a non-nullable column is read at its offset. A column that is
   * read carries the bound type `t`.
   */
  function SideValue(d: ConDesc, t: AttrType, rec: Record, decode: Decoder): (v: Value)
    requires d != Unbound && t != Undefined && SideFits(d, rec)
    ensures d.ValueDesc? ==> v == d.value
    ensures d.AttrDesc? && d.field.nullable && rec.data[d.field.offset] != 0 ==> v == NullVal
    ensures d.AttrDesc? && d.field.nullable && rec.data[d.field.offset] == 0 ==>
      v == Decode(t, rec.data[d.field.offset + 1..], decode)
    ensures d.AttrDesc? && !d.field.nullable ==> v == Decode(t, rec.data[d.field.offset..], decode)
    ensures d.AttrDesc? && !SideIsNull(d, rec) ==> TypeOf(v) == t
  {
    match d
    case AttrDesc(fm) =>
      if fm.nullable then
        if rec.data[fm.offset] != 0 then NullVal else Decode(t, rec.data[fm.offset + 1..], decode)
      else Decode(t, rec.data[fm.offset..], decode)
    case ValueDesc(v) => v
  }

  /** A side that reads as NULL on this record by its literal or its indicator byte. */
  predicate SideIsNull(d: ConDesc, rec: Record)
    requires SideFits(d, rec)
  {
    (d.ValueDesc? && d.value.NullVal?)
    || (d.AttrDesc? && d.field.nullable && rec.data[d.field.offset] != 0)
  }

  // ---------------------------------------------------------------------------
  // The filter objects

  class DefaultConditionFilter {
    var left: ConDesc
    var right: ConDesc
    var leftType: AttrType
    var rightType: AttrType
    var compOp: CompOp

    /** An unbound filter: both sides are literals without a value. */
    constructor ()
      ensures left == Unbound && right == Unbound
    {
      left := Unbound;
      right := Unbound;
      leftType := Undefined;
      rightType := Undefined;
      compOp := NoOp;
    }

    function State(): Binding
      reads this
    {
      Binding(left, right, leftType, rightType, compOp)
    }

    predicate Valid()
      reads this
    {
      ValidBinding(State())
    }

    predicate Safe()
      reads this
    {
      SafeBinding(State())
    }

    predicate Fits(rec: Record)
      reads this
    {
      SideFits(left, rec) && SideFits(right, rec)
    }

    /** Stores all five fields when the types and the operator are in range, and none otherwise. */
    method InitChecked(l: ConDesc, r: ConDesc, lt: AttrType, rt: AttrType, op: CompOp) returns (rc: Rc)
      modifies this
      ensures CheckBinding(l, r, lt, rt, op).Ok? ==> rc == Success && State() == Binding(l, r, lt, rt, op)
      ensures CheckBinding(l, r, lt, rt, op).Err? ==> rc == InvalidArgument && unchanged(this)
    {
      if TypeOrdinal(lt) <= TypeOrdinal(Undefined) || TypeOrdinal(lt) > TypeOrdinal(Dates) {
        return InvalidArgument;
      }
      if TypeOrdinal(rt) <= TypeOrdinal(Undefined) || TypeOrdinal(rt) > TypeOrdinal(Dates) {
        return InvalidArgument;
      }
      if CompOpOrdinal(op) < CompOpOrdinal(EqualTo) || CompOpOrdinal(op) >= CompOpOrdinal(NoOp) {
        return InvalidArgument;
      }
      left := l;
      right := r;
      leftType := lt;
      rightType := rt;
      compOp := op;
      rc := Success;
    }

    /** Binds `c` to the table whose columns are `metas`. */
    method Init(metas: seq<FieldMeta>, c: Condition) returns (rc: Rc)
      modifies this
      ensures Bind(metas, c).Ok? ==> rc == Success && State() == Bind(metas, c).value
      ensures Bind(metas, c).Err? ==> rc == Bind(metas, c).rc && unchanged(this)
    {
      var l: ConDesc, typeLeft: AttrType;
      if c.lhs.AttrOperand? {
        var fm := FindFieldMeta(metas, c.lhs.attribute);
        if fm.None? {
          return SchemaFieldMissing;
        }
        l, typeLeft := AttrDesc(fm.value), fm.value.ftype;
      } else {
        l, typeLeft := ValueDesc(c.lhs.value), TypeOf(c.lhs.value);
      }
      var r: ConDesc, typeRight: AttrType;
      if c.rhs.AttrOperand? {
        var fm := FindFieldMeta(metas, c.rhs.attribute);
        if fm.None? {
          return SchemaFieldMissing;
        }
        r, typeRight := AttrDesc(fm.value), fm.value.ftype;
      } else {
        r, typeRight := ValueDesc(c.rhs.value), TypeOf(c.rhs.value);
      }
      if typeLeft == typeRight || typeLeft == Nulls || typeRight == Nulls
         || ((typeLeft == Ints || typeLeft == Floats) && (typeRight == Ints || typeRight == Floats)) {
        rc := InitChecked(l, r, typeLeft, typeRight, c.op);
        return;
      }
      return SchemaFieldTypeMismatch;
    }

    /** Evaluates the bound condition on a record. */
    function Filter(rec: Record, decode: Decoder): (r: bool)
      reads this
      requires Valid() && Safe() && Fits(rec)
      ensures compOp.IsOrdinary() && (SideIsNull(left, rec) || SideIsNull(right, rec)) ==> !r
      ensures r ==> (compOp.IsNullTest()
        || Comparable(TypeOf(SideValue(left, leftType, rec, decode)), TypeOf(SideValue(right, rightType, rec, decode))))
    {
      ValueCompare(SideValue(left, leftType, rec, decode), SideValue(right, rightType, rec, decode), compOp)
    }
  }

  /** `col IS NULL` on a nullable column holds exactly when the record's indicator byte is set. */
  lemma IsNullFilterReadsIndicator(f: DefaultConditionFilter, rec: Record, decode: Decoder)
    requires f.Valid() && f.Safe() && f.Fits(rec)
    requires f.compOp == IsNull && f.right == ValueDesc(NullVal)
    requires f.left.AttrDesc? && f.left.field.nullable && f.leftType != Nulls
    ensures f.Filter(rec, decode) <==> rec.data[f.left.field.offset] != 0
  {
  }

  /** A new filter per condition, in order; the first failing condition's code stops the loop. */
  method NewFilters(metas: seq<FieldMeta>, cs: seq<Condition>) returns (rc: Rc, created: seq<DefaultConditionFilter>)
    ensures BindAll(metas, cs).Err? ==> rc == BindAll(metas, cs).rc
    ensures BindAll(metas, cs).Ok? ==>
      rc == Success && |created| == |cs|
      && forall i :: 0 <= i < |cs| ==> fresh(created[i]) && created[i].State() == BindAll(metas, cs).value[i]
  {
    created := [];
    ghost var bs: seq<Binding> := [];
    var i := 0;
    while i < |cs|
      invariant 0 <= i <= |cs|
      invariant BindAll(metas, cs[..i]) == Ok(bs)
      invariant |created| == i
      invariant forall j :: 0 <= j < i ==> fresh(created[j]) && created[j].State() == bs[j]
    {
      var f := new DefaultConditionFilter();
      rc := f.Init(metas, cs[i]);
      assert cs[..i + 1][..i] == cs[..i];
      if rc != Success {
        BindAllKeepsError(metas, cs, i + 1);
        return;
      }
      created := created + [f];
      bs := bs + [f.State()];
      i := i + 1;
    }
    assert cs[..i] == cs;
    rc := Success;
  }

  class CompositeConditionFilter {
    var filters: seq<DefaultConditionFilter>
    var memoryOwner: bool

    constructor ()
      ensures filters == [] && !memoryOwner
    {
      filters := [];
      memoryOwner := false;
    }

    ghost predicate Valid()
      reads this, filters
    {
      forall i :: 0 <= i < |filters| ==> filters[i].Valid() && filters[i].Safe()
    }

    /** Takes over a list of filters built elsewhere. */
    method InitWith(fs: seq<DefaultConditionFilter>, ownMemory: bool)
      modifies this
      ensures filters == fs && memoryOwner == ownMemory
    {
      filters := fs;
      memoryOwner := ownMemory;
    }

    /**
     * Builds one filter per condition. No conditions is a success that
     * keeps nothing; an absent array is an invalid argument; otherwise the
     * first failing condition's code is returned and no filter is kept.
     */
    method Init(metas: seq<FieldMeta>, conditions: Option<seq<Condition>>, conditionNum: nat) returns (rc: Rc)
      requires conditions.Some? ==> conditionNum <= |conditions.value|
      modifies this
      ensures conditionNum == 0 ==> rc == Success && unchanged(this)
      ensures conditionNum > 0 && conditions.None? ==> rc == InvalidArgument && unchanged(this)
      ensures conditionNum > 0 && conditions.Some? && BindAll(metas, conditions.value[..conditionNum]).Err? ==>
        rc == BindAll(metas, conditions.value[..conditionNum]).rc && unchanged(this)
      ensures conditionNum > 0 && conditions.Some? && BindAll(metas, conditions.value[..conditionNum]).Ok? ==>
        rc == Success && memoryOwner && |filters| == conditionNum
        && (forall i :: 0 <= i < conditionNum ==>
              fresh(filters[i]) && filters[i].State() == BindAll(metas, conditions.value[..conditionNum]).value[i])
      ensures (conditionNum > 0 && conditions.Some? && rc == Success
        && forall i :: 0 <= i < conditionNum ==> WellFormedCondition(conditions.value[i])) ==> Valid()
    {
      if conditionNum == 0 {
        return Success;
      }
      if conditions.None? {
        return InvalidArgument;
      }
      var cs := conditions.value[..conditionNum];
      var created;
      rc, created := NewFilters(metas, cs);
      if rc != Success {
        return;
      }
      BindAllElements(metas, cs);
      InitWith(created, true);
    }

    /** Accepts a record exactly when every filter accepts it; stops at the first rejection. */
    method Filter(rec: Record, decode: Decoder) returns (r: bool)
      requires Valid()
      requires forall i :: 0 <= i < |filters| ==> filters[i].Fits(rec)
      ensures r <==> forall i :: 0 <= i < |filters| ==> filters[i].Filter(rec, decode)
    {
      var i := 0;
      while i < |filters|
        invariant 0 <= i <= |filters|
        invariant forall j :: 0 <= j < i ==> filters[j].Filter(rec, decode)
      {
        if !filters[i].Filter(rec, decode) {
          return false;
        }
        i := i + 1;
      }
      return true;
    }
  }
}
