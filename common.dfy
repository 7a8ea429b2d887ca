/*
 * Shared vocabulary of the SELECT executor: return codes, attribute types,
 * comparison operators, typed values, string order, and the parsed query
 * (`Selects`) together with the table catalogue it is run against.
 */
module Common {

  datatype Option<T> = None | Some(value: T)

  /** The return codes the executor produces (a subset of the server's RC). */
  datatype Rc =
    | Success
    | SqlSyntax
    | SchemaTableNotExist
    | SchemaFieldMissing
    | SchemaFieldTypeMismatch
    | InvalidArgument

  /** A value or the return code that stopped its computation. */
  datatype Result<T> = Ok(value: T) | Err(rc: Rc)

  // ---------------------------------------------------------------------------
  // Attribute types and comparison operators

  datatype AttrType = Undefined | Chars | Ints | Floats | Nulls | Dates

  /**
   * Position of a type in the enum declaration. The declaration is not part
   * of this model; the order assumed keeps every defined type, NULLS
   * included, inside the range (UNDEFINED, DATES] that binding accepts.
   */
  function TypeOrdinal(t: AttrType): int {
    match t
    case Undefined => 0
    case Chars => 1
    case Ints => 2
    case Floats => 3
    case Nulls => 4
    case Dates => 5
  }

  predicate IsNumericType(t: AttrType) {
    t == Ints || t == Floats
  }

  predicate IsStringType(t: AttrType) {
    t == Chars || t == Dates
  }

  datatype CompOp =
    | EqualTo | LessEqual | NotEqual | LessThan | GreatEqual | GreatThan
    | IsNull | NotNull | NoOp
  {
    /** The six operators that compare two values. */
    predicate IsOrdinary() {
      !(IsNull? || NotNull? || NoOp?)
    }

    predicate IsNullTest() {
      IsNull? || NotNull?
    }
  }

  /** Position of an operator in the enum declaration; NO_OP closes it. */
  function CompOpOrdinal(op: CompOp): int {
    match op
    case EqualTo => 0
    case LessEqual => 1
    case NotEqual => 2
    case LessThan => 3
    case GreatEqual => 4
    case GreatThan => 5
    case IsNull => 6
    case NotNull => 7
    case NoOp => 8
  }

  // ---------------------------------------------------------------------------
  // Values

  /**
   * A typed scalar. Floats are taken over the reals: the source's 32-bit
   * float rounding and compare tolerance are not modelled.
   */
  datatype Value =
    | IntVal(i: int)
    | FloatVal(f: real)
    | CharsVal(s: string)
    | DateVal(d: string)
    | NullVal

  function TypeOf(v: Value): AttrType {
    match v
    case IntVal(_) => Ints
    case FloatVal(_) => Floats
    case CharsVal(_) => Chars
    case DateVal(_) => Dates
    case NullVal => Nulls
  }

  /** The numeric value of an INTS or FLOATS value, an int promoted to real. */
  function NumOf(v: Value): real
    requires IsNumericType(TypeOf(v))
  {
    if v.IntVal? then v.i as real else v.f
  }

  /** The characters of a CHARS or DATES value. */
  function StrOf(v: Value): string
    requires IsStringType(TypeOf(v))
  {
    if v.CharsVal? then v.s else v.d
  }

  /** Three-way comparison of two reals: -1, 0 or 1. */
  function NumCmp(x: real, y: real): (r: int)
    ensures r < 0 <==> x < y
    ensures r == 0 <==> x == y
    ensures r > 0 <==> x > y
  {
    if x < y then -1 else if x == y then 0 else 1
  }

  /**
   * Byte-string order as `strcmp` gives it: the first differing character
   * decides, and a proper prefix is smaller.
   */
  function StrCmp(a: string, b: string): (r: int)
    ensures -1 <= r <= 1
  {
    if a == [] && b == [] then 0
    else if a == [] then -1
    else if b == [] then 1
    else if a[0] < b[0] then -1
    else if a[0] > b[0] then 1
    else StrCmp(a[1..], b[1..])
  }

  lemma {:induction false} StrCmpEqual(a: string, b: string)
    ensures StrCmp(a, b) == 0 <==> a == b
  {
    if a != [] && b != [] && a[0] == b[0] {
      StrCmpEqual(a[1..], b[1..]);
      assert a == [a[0]] + a[1..];
      assert b == [b[0]] + b[1..];
    }
  }

  lemma {:induction false} StrCmpAntisymmetric(a: string, b: string)
    ensures StrCmp(a, b) == -StrCmp(b, a)
  {
    if a != [] && b != [] && a[0] == b[0] {
      StrCmpAntisymmetric(a[1..], b[1..]);
    }
  }

  lemma {:induction false} StrCmpTransitive(a: string, b: string, c: string)
    requires StrCmp(a, b) <= 0 && StrCmp(b, c) <= 0
    ensures StrCmp(a, c) <= 0
  {
    if a != [] && b != [] && c != [] && a[0] == b[0] && b[0] == c[0] {
      StrCmpTransitive(a[1..], b[1..], c[1..]);
    }
  }

  /** The elements of `s` from last to first. */
  function Reversed<T>(s: seq<T>): (r: seq<T>)
    ensures |r| == |s|
    ensures forall i :: 0 <= i < |s| ==> r[i] == s[|s| - 1 - i]
  {
    if s == [] then [] else [s[|s| - 1]] + Reversed(s[..|s| - 1])
  }

  // ---------------------------------------------------------------------------
  // Table metadata and the parsed query

  /** A column of a stored table: name, type, byte offset and nullability. */
  datatype FieldMeta = FieldMeta(name: string, ftype: AttrType, offset: nat, nullable: bool)

  /** The user-visible columns of every table, by table name. */
  type Catalogue = map<string, seq<FieldMeta>>

  /** The first column of a table with the given name, if any. */
  function FindFieldMeta(metas: seq<FieldMeta>, name: string): (r: Option<FieldMeta>)
    ensures r.Some? ==> r.value in metas && r.value.name == name
    ensures r.None? ==> forall m :: m in metas ==> m.name != name
  {
    if metas == [] then None
    else if metas[0].name == name then Some(metas[0])
    else FindFieldMeta(metas[1..], name)
  }

  /** One side of a condition: a column reference or a literal. */
  datatype Operand =
    | AttrOperand(relation: Option<string>, attribute: string)
    | ValueOperand(value: Value)

  datatype Condition = Condition(lhs: Operand, op: CompOp, rhs: Operand)

  /** A column reference of the select list or ORDER BY; either name may be absent. */
  datatype RelAttr = RelAttr(relation: Option<string>, attribute: Option<string>)

  datatype OrderBy = OrderBy(attr: RelAttr, isDesc: bool)

  /**
   * The parsed SELECT. `relations`, `attributes` and `aggregates` are in the
   * reverse of their textual order, as the parser produces them.
   */
  datatype Selects = Selects(
    relations: seq<string>,
    attributes: seq<RelAttr>,
    aggregates: seq<Option<string>>,
    conditions: seq<Condition>,
    orders: seq<OrderBy>)

  predicate IsNullLiteral(o: Operand) {
    o.ValueOperand? && o.value.NullVal?
  }

  /**
   * What the parser guarantees of a condition: its operator is a real one,
   * and IS NULL / IS NOT NULL always carry a NULL literal on one side.
   */
  predicate WellFormedCondition(c: Condition) {
    c.op != NoOp && (c.op.IsNullTest() ==> IsNullLiteral(c.lhs) || IsNullLiteral(c.rhs))
  }

  predicate IsAttrPair(c: Condition) {
    c.lhs.AttrOperand? && c.rhs.AttrOperand?
  }

  /** Both sides of a column-vs-column condition name their table. */
  predicate QualifiedPair(c: Condition) {
    IsAttrPair(c) ==> c.lhs.relation.Some? && c.rhs.relation.Some?
  }

  lemma WellFormedPairIsOrdinary(c: Condition)
    requires WellFormedCondition(c) && IsAttrPair(c)
    ensures c.op.IsOrdinary()
  {
  }
}
