/*
 * Aggregation (`field_name_is_numeric`, `aggregate`, `aggregate_numeric` and
 * `aggregate_string` in sql/executor/select_executor.cpp).
 *
 * An aggregate query turns all filtered tuples into a single tuple with one
 * value per aggregate item. Item `i` pairs the function name `aggregates[i]`
 * with the column `attributes[i]`.
 */
module Aggregation {
  import opened Common
  import opened Schemas
  import opened NameResolution

  // ---------------------------------------------------------------------------
  // field_name_is_numeric

  predicate IsDigit(c: char) {
    '0' <= c <= '9'
  }

  /**
   * The test for a numeric literal as written, over the C library's
   * `isdigit`: a character passes only when it is a digit and also '.', so
   * with the library's `isdigit` every non-empty name fails at its first
   * character.
   */
  function NumericName(name: string, isDigit: char -> bool): (r: bool)
    ensures r <==> forall k :: 0 <= k < |name| ==> isDigit(name[k]) && name[k] == '.'
  {
    if name == [] then true
    else if !isDigit(name[0]) || name[0] != '.' then false
    else NumericName(name[1..], isDigit)
  }

  /** When '.' is not a digit, only the empty name counts as numeric. */
  lemma NumericNameIffEmpty(name: string, isDigit: char -> bool)
    requires !isDigit('.')
    ensures NumericName(name, isDigit) <==> name == []
  {
  }

  method FieldNameIsNumeric(name: string, isDigit: char -> bool) returns (b: bool)
    ensures b == NumericName(name, isDigit)
    ensures !isDigit('.') ==> (b <==> name == [])
  {
    var i := 0;
    while i < |name|
      invariant 0 <= i <= |name|
      invariant NumericName(name, isDigit) == NumericName(name[i..], isDigit)
      invariant i > 0 ==> isDigit('.')
    {
      if !isDigit(name[i]) || name[i] != '.' {
        return false;
      }
      assert name[i..][1..] == name[i + 1..];
      i := i + 1;
    }
    return true;
  }

  // ---------------------------------------------------------------------------
  // Columns

  /** Every tuple has a value at `pos`. */
  predicate ColumnIn(tuples: seq<Tuple>, pos: nat) {
    forall k :: 0 <= k < |tuples| ==> pos < |tuples[k]|
  }

  /** How many tuples have a non-NULL value at `pos`. */
  function NonNullCount(tuples: seq<Tuple>, pos: nat): (n: nat)
    requires ColumnIn(tuples, pos)
    ensures n <= |tuples|
  {
    if tuples == [] then 0
    else
      var last := |tuples| - 1;
      NonNullCount(tuples[..last], pos) + (if tuples[last][pos].NullVal? then 0 else 1)
  }

  /**
   * The non-NULL values at `pos`, in tuple order, as numbers; a CHARS or
   * DATES value makes the column unusable.
   */
  function NumericColumn(tuples: seq<Tuple>, pos: nat): (r: Result<seq<real>>)
    requires ColumnIn(tuples, pos)
    ensures r.Err? ==> r.rc == SqlSyntax
  {
    if tuples == [] then Ok([])
    else
      var last := |tuples| - 1;
      match NumericColumn(tuples[..last], pos)
      case Err(e) => Err(e)
      case Ok(vs) =>
        match tuples[last][pos]
        case NullVal => Ok(vs)
        case IntVal(i) => Ok(vs + [i as real])
        case FloatVal(f) => Ok(vs + [f])
        case _ => Err(SqlSyntax)
  }

  /** The non-NULL values at `pos`, in tuple order, as strings; a number makes the column unusable. */
  function StringColumn(tuples: seq<Tuple>, pos: nat): (r: Result<seq<string>>)
    requires ColumnIn(tuples, pos)
    ensures r.Err? ==> r.rc == SqlSyntax
  {
    if tuples == [] then Ok([])
    else
      var last := |tuples| - 1;
      match StringColumn(tuples[..last], pos)
      case Err(e) => Err(e)
      case Ok(ss) =>
        match tuples[last][pos]
        case NullVal => Ok(ss)
        case CharsVal(s) => Ok(ss + [s])
        case DateVal(d) => Ok(ss + [d])
        case _ => Err(SqlSyntax)
  }

  /** A numeric column fails exactly when some value in it is a string. */
  lemma {:induction false} NumericColumnFails(tuples: seq<Tuple>, pos: nat)
    requires ColumnIn(tuples, pos)
    ensures NumericColumn(tuples, pos).Err? <==>
      exists k :: 0 <= k < |tuples| && IsStringType(TypeOf(tuples[k][pos]))
  {
    if tuples != [] {
      var last := |tuples| - 1;
      NumericColumnFails(tuples[..last], pos);
      if exists k :: 0 <= k < last && IsStringType(TypeOf(tuples[..last][k][pos])) {
        var k :| 0 <= k < last && IsStringType(TypeOf(tuples[..last][k][pos]));
        assert tuples[k] == tuples[..last][k];
      }
      if exists k :: 0 <= k < |tuples| && IsStringType(TypeOf(tuples[k][pos])) {
        var k :| 0 <= k < |tuples| && IsStringType(TypeOf(tuples[k][pos]));
        if k < last {
          assert tuples[k] == tuples[..last][k];
        }
      }
    }
  }

  /** A string column fails exactly when some value in it is a number. */
  lemma {:induction false} StringColumnFails(tuples: seq<Tuple>, pos: nat)
    requires ColumnIn(tuples, pos)
    ensures StringColumn(tuples, pos).Err? <==>
      exists k :: 0 <= k < |tuples| && IsNumericType(TypeOf(tuples[k][pos]))
  {
    if tuples != [] {
      var last := |tuples| - 1;
      StringColumnFails(tuples[..last], pos);
      if exists k :: 0 <= k < last && IsNumericType(TypeOf(tuples[..last][k][pos])) {
        var k :| 0 <= k < last && IsNumericType(TypeOf(tuples[..last][k][pos]));
        assert tuples[k] == tuples[..last][k];
      }
      if exists k :: 0 <= k < |tuples| && IsNumericType(TypeOf(tuples[k][pos])) {
        var k :| 0 <= k < |tuples| && IsNumericType(TypeOf(tuples[k][pos]));
        if k < last {
          assert tuples[k] == tuples[..last][k];
        }
      }
    }
  }

  /** A usable numeric column has one number per non-NULL value. */
  lemma {:induction false} NumericColumnCount(tuples: seq<Tuple>, pos: nat)
    requires ColumnIn(tuples, pos) && NumericColumn(tuples, pos).Ok?
    ensures |NumericColumn(tuples, pos).value| == NonNullCount(tuples, pos)
  {
    if tuples != [] {
      NumericColumnCount(tuples[..|tuples| - 1], pos);
    }
  }

  /** A usable string column has one string per non-NULL value. */
  lemma {:induction false} StringColumnCount(tuples: seq<Tuple>, pos: nat)
    requires ColumnIn(tuples, pos) && StringColumn(tuples, pos).Ok?
    ensures |StringColumn(tuples, pos).value| == NonNullCount(tuples, pos)
  {
    if tuples != [] {
      StringColumnCount(tuples[..|tuples| - 1], pos);
    }
  }

  /** The numbers of a usable numeric column are exactly its non-NULL values. */
  lemma {:induction false} NumericColumnValues(tuples: seq<Tuple>, pos: nat, x: real)
    requires ColumnIn(tuples, pos) && NumericColumn(tuples, pos).Ok?
    ensures x in NumericColumn(tuples, pos).value <==>
      exists k :: 0 <= k < |tuples| && IsNumericType(TypeOf(tuples[k][pos])) && NumOf(tuples[k][pos]) == x
  {
    if tuples != [] {
      var last := |tuples| - 1;
      var front := tuples[..last];
      NumericColumnValues(front, pos, x);
      if exists k :: 0 <= k < last && IsNumericType(TypeOf(front[k][pos])) && NumOf(front[k][pos]) == x {
        var k :| 0 <= k < last && IsNumericType(TypeOf(front[k][pos])) && NumOf(front[k][pos]) == x;
        assert tuples[k] == front[k];
      }
      if exists k :: 0 <= k < |tuples| && IsNumericType(TypeOf(tuples[k][pos])) && NumOf(tuples[k][pos]) == x {
        var k :| 0 <= k < |tuples| && IsNumericType(TypeOf(tuples[k][pos])) && NumOf(tuples[k][pos]) == x;
        if k < last {
          assert tuples[k] == front[k];
        }
      }
    }
  }

  /** The strings of a usable string column are exactly its non-NULL values. */
  lemma {:induction false} StringColumnValues(tuples: seq<Tuple>, pos: nat, x: string)
    requires ColumnIn(tuples, pos) && StringColumn(tuples, pos).Ok?
    ensures x in StringColumn(tuples, pos).value <==>
      exists k :: 0 <= k < |tuples| && IsStringType(TypeOf(tuples[k][pos])) && StrOf(tuples[k][pos]) == x
  {
    if tuples != [] {
      var last := |tuples| - 1;
      var front := tuples[..last];
      StringColumnValues(front, pos, x);
      if exists k :: 0 <= k < last && IsStringType(TypeOf(front[k][pos])) && StrOf(front[k][pos]) == x {
        var k :| 0 <= k < last && IsStringType(TypeOf(front[k][pos])) && StrOf(front[k][pos]) == x;
        assert tuples[k] == front[k];
      }
      if exists k :: 0 <= k < |tuples| && IsStringType(TypeOf(tuples[k][pos])) && StrOf(tuples[k][pos]) == x {
        var k :| 0 <= k < |tuples| && IsStringType(TypeOf(tuples[k][pos])) && StrOf(tuples[k][pos]) == x;
        if k < last {
          assert tuples[k] == front[k];
        }
      }
    }
  }

  // ---------------------------------------------------------------------------
  // Numeric aggregates

  /** Conversion of a real to an int, toward zero. */
  function Trunc(x: real): int {
    if x >= 0.0 then x.Floor else -((-x).Floor)
  }

  predicate Integral(x: real) {
    x == x.Floor as real
  }

  /**
   * The sum as the source accumulates it: the accumulator is an `int`, so
   * every partial sum is cut toward zero before the next value is added.
   */
  function TruncSum(vs: seq<real>): (r: int)
    ensures (forall k :: 0 <= k < |vs| ==> vs[k] >= 0.0) ==> 0 <= r && r as real <= Sum(vs)
  {
    if vs == [] then 0 else Trunc(TruncSum(vs[..|vs| - 1]) as real + vs[|vs| - 1])
  }

  /** The exact sum. */
  function Sum(vs: seq<real>): real {
    if vs == [] then 0.0 else Sum(vs[..|vs| - 1]) + vs[|vs| - 1]
  }

  lemma TruncOfInteger(n: int)
    ensures Trunc(n as real) == n
  {
  }

  /** Over whole numbers the truncating accumulation is the exact sum. */
  lemma {:induction false} TruncSumOfIntegers(vs: seq<real>)
    requires forall k :: 0 <= k < |vs| ==> Integral(vs[k])
    ensures TruncSum(vs) as real == Sum(vs)
  {
    if vs != [] {
      var front := vs[..|vs| - 1];
      assert forall k :: 0 <= k < |front| ==> Integral(front[k]) by {
        forall k | 0 <= k < |front| ensures Integral(front[k]) {
          assert front[k] == vs[k];
        }
      }
      TruncSumOfIntegers(front);
      assert Integral(vs[|vs| - 1]);
      TruncOfInteger(TruncSum(front) + vs[|vs| - 1].Floor);
    }
  }

  /** The largest value, the first one found when several are equal. */
  function MaxOf(vs: seq<real>): (r: real)
    requires vs != []
    ensures r in vs
    ensures forall k :: 0 <= k < |vs| ==> vs[k] <= r
  {
    if |vs| == 1 then vs[0]
    else
      var m := MaxOf(vs[..|vs| - 1]);
      assert forall k :: 0 <= k < |vs| - 1 ==> vs[k] == vs[..|vs| - 1][k];
      if m < vs[|vs| - 1] then vs[|vs| - 1] else m
  }

  /** The smallest value, the first one found when several are equal. */
  function MinOf(vs: seq<real>): (r: real)
    requires vs != []
    ensures r in vs
    ensures forall k :: 0 <= k < |vs| ==> r <= vs[k]
  {
    if |vs| == 1 then vs[0]
    else
      var m := MinOf(vs[..|vs| - 1]);
      assert forall k :: 0 <= k < |vs| - 1 ==> vs[k] == vs[..|vs| - 1][k];
      if vs[|vs| - 1] < m then vs[|vs| - 1] else m
  }

  /**
   * The aggregate of the numbers of a column: `count` counts them; with no
   * number the others give the string "NULL"; `avg` divides the truncating
   * sum by the count; `max` and `min`; any other name is a syntax error.
   */
  function NumericAggregate(vs: seq<real>, agg: string): (r: Result<Value>)
    ensures r.Err? <==> vs != [] && agg !in {"count", "avg", "max", "min"}
    ensures r.Err? ==> r.rc == SqlSyntax
  {
    if agg == "count" then Ok(FloatVal(|vs| as real))
    else if vs == [] then Ok(CharsVal("NULL"))
    else if agg == "avg" then Ok(FloatVal(TruncSum(vs) as real / |vs| as real))
    else if agg == "max" then Ok(FloatVal(MaxOf(vs)))
    else if agg == "min" then Ok(FloatVal(MinOf(vs)))
    else Err(SqlSyntax)
  }

  /** `aggregate_numeric`: the column's numbers, then their aggregate. */
  function NumericColumnAggregate(tuples: seq<Tuple>, pos: nat, agg: string): (r: Result<Value>)
    requires ColumnIn(tuples, pos)
    ensures r.Err? ==> r.rc == SqlSyntax
  {
    match NumericColumn(tuples, pos)
    case Err(e) => Err(e)
    case Ok(vs) => NumericAggregate(vs, agg)
  }

  // ---------------------------------------------------------------------------
  // String aggregates

  function DigitChar(d: nat): (c: char)
    requires d < 10
    ensures IsDigit(c)
  {
    ('0' as int + d) as char
  }

  /** `std::to_string` of a count: its decimal digits, most significant first. */
  function DecimalString(n: nat): (s: string)
    ensures s != []
    ensures forall k :: 0 <= k < |s| ==> IsDigit(s[k])
    ensures s[0] == '0' ==> n == 0
    decreases n
  {
    if n < 10 then [DigitChar(n)] else DecimalString(n / 10) + [DigitChar(n % 10)]
  }

  /** The number a string of decimal digits denotes. */
  function ParseDecimal(s: string): nat
    requires forall k :: 0 <= k < |s| ==> IsDigit(s[k])
  {
    if s == [] then 0
    else
      var d := s[|s| - 1] as int - '0' as int;
      assert IsDigit(s[|s| - 1]);
      ParseDecimal(s[..|s| - 1]) * 10 + d
  }

  /** Reading back a count's decimal string gives the count. */
  lemma {:induction false} DecimalStringRoundTrip(n: nat)
    ensures ParseDecimal(DecimalString(n)) == n
    decreases n
  {
    if n >= 10 {
      var s := DecimalString(n);
      var front := DecimalString(n / 10);
      assert s[..|s| - 1] == front;
      DecimalStringRoundTrip(n / 10);
    }
  }

  /** The greatest string under `std::string` order, the first one found among equals. */
  function StrMax(ss: seq<string>): (r: string)
    requires ss != []
    ensures r in ss
  {
    if |ss| == 1 then ss[0]
    else
      var m := StrMax(ss[..|ss| - 1]);
      if StrCmp(m, ss[|ss| - 1]) < 0 then ss[|ss| - 1] else m
  }

  /** The least string under `std::string` order, the first one found among equals. */
  function StrMin(ss: seq<string>): (r: string)
    requires ss != []
    ensures r in ss
  {
    if |ss| == 1 then ss[0]
    else
      var m := StrMin(ss[..|ss| - 1]);
      if StrCmp(ss[|ss| - 1], m) < 0 then ss[|ss| - 1] else m
  }

  lemma {:induction false} StrMaxIsGreatest(ss: seq<string>)
    requires ss != []
    ensures forall k :: 0 <= k < |ss| ==> StrCmp(ss[k], StrMax(ss)) <= 0
  {
    var n := |ss| - 1;
    if n == 0 {
      StrCmpEqual(ss[0], ss[0]);
    } else {
      var front := ss[..n];
      var m := StrMax(front);
      StrMaxIsGreatest(front);
      forall k | 0 <= k < |ss| ensures StrCmp(ss[k], StrMax(ss)) <= 0 {
        if k < n {
          assert ss[k] == front[k];
          if StrCmp(m, ss[n]) < 0 {
            StrCmpTransitive(ss[k], m, ss[n]);
          }
        } else if StrCmp(m, ss[n]) < 0 {
          StrCmpEqual(ss[n], ss[n]);
        } else {
          StrCmpAntisymmetric(m, ss[n]);
        }
      }
    }
  }

  lemma {:induction false} StrMinIsLeast(ss: seq<string>)
    requires ss != []
    ensures forall k :: 0 <= k < |ss| ==> StrCmp(StrMin(ss), ss[k]) <= 0
  {
    var n := |ss| - 1;
    if n == 0 {
      StrCmpEqual(ss[0], ss[0]);
    } else {
      var front := ss[..n];
      var m := StrMin(front);
      StrMinIsLeast(front);
      forall k | 0 <= k < |ss| ensures StrCmp(StrMin(ss), ss[k]) <= 0 {
        if k < n {
          assert ss[k] == front[k];
          if StrCmp(ss[n], m) < 0 {
            StrCmpTransitive(ss[n], m, ss[k]);
          }
        } else if StrCmp(ss[n], m) < 0 {
          StrCmpEqual(ss[n], ss[n]);
        } else {
          StrCmpAntisymmetric(ss[n], m);
        }
      }
    }
  }

  /**
   * The aggregate of the strings of a column: `count` gives the count as a
   * decimal string; with no string the others give "NULL"; `max` and `min`;
   * any other name, `avg` included, is a syntax error.
   */
  function StringAggregate(ss: seq<string>, agg: string): (r: Result<string>)
    ensures r.Err? <==> ss != [] && agg !in {"count", "max", "min"}
    ensures r.Err? ==> r.rc == SqlSyntax
  {
    if agg == "count" then Ok(DecimalString(|ss|))
    else if ss == [] then Ok("NULL")
    else if agg == "max" then Ok(StrMax(ss))
    else if agg == "min" then Ok(StrMin(ss))
    else Err(SqlSyntax)
  }

  /** `aggregate_string`: the column's strings, then their aggregate, as a CHARS value. */
  function StringColumnAggregate(tuples: seq<Tuple>, pos: nat, agg: string): (r: Result<Value>)
    requires ColumnIn(tuples, pos)
    ensures r.Err? ==> r.rc == SqlSyntax
  {
    match StringColumn(tuples, pos)
    case Err(e) => Err(e)
    case Ok(ss) =>
      match StringAggregate(ss, agg)
      case Err(e) => Err(e)
      case Ok(s) => Ok(CharsVal(s))
  }

  // ---------------------------------------------------------------------------
  // What the column aggregates mean

  /** `count` of a usable numeric column is its number of non-NULL values. */
  lemma NumericCount(tuples: seq<Tuple>, pos: nat)
    requires ColumnIn(tuples, pos) && NumericColumn(tuples, pos).Ok?
    ensures NumericColumnAggregate(tuples, pos, "count") == Ok(FloatVal(NonNullCount(tuples, pos) as real))
  {
    NumericColumnCount(tuples, pos);
  }

  /** `count` of a usable string column is its number of non-NULL values, in decimal. */
  lemma StringCount(tuples: seq<Tuple>, pos: nat)
    requires ColumnIn(tuples, pos) && StringColumn(tuples, pos).Ok?
    ensures StringColumnAggregate(tuples, pos, "count") == Ok(CharsVal(DecimalString(NonNullCount(tuples, pos))))
  {
    StringColumnCount(tuples, pos);
  }

  /** Over a column of NULLs only, every aggregate but `count` is the string "NULL". */
  lemma {:induction false} AllNullIsNull(tuples: seq<Tuple>, pos: nat, agg: string)
    requires ColumnIn(tuples, pos) && agg != "count"
    requires forall k :: 0 <= k < |tuples| ==> tuples[k][pos] == NullVal
    ensures NumericColumnAggregate(tuples, pos, agg) == Ok(CharsVal("NULL"))
    ensures StringColumnAggregate(tuples, pos, agg) == Ok(CharsVal("NULL"))
  {
    AllNullEmpty(tuples, pos);
  }

  lemma {:induction false} AllNullEmpty(tuples: seq<Tuple>, pos: nat)
    requires ColumnIn(tuples, pos)
    requires forall k :: 0 <= k < |tuples| ==> tuples[k][pos] == NullVal
    ensures NumericColumn(tuples, pos) == Ok([]) && StringColumn(tuples, pos) == Ok([])
  {
    if tuples != [] {
      var front := tuples[..|tuples| - 1];
      assert forall k :: 0 <= k < |front| ==> front[k] == tuples[k];
      AllNullEmpty(front, pos);
    }
  }

  /** `max` of a numeric column is one of its values and no value exceeds it. */
  lemma NumericMax(tuples: seq<Tuple>, pos: nat)
    requires ColumnIn(tuples, pos) && NumericColumn(tuples, pos).Ok? && NonNullCount(tuples, pos) > 0
    ensures var r := NumericColumnAggregate(tuples, pos, "max");
      r.Ok? && r.value.FloatVal?
      && (exists k :: 0 <= k < |tuples| && IsNumericType(TypeOf(tuples[k][pos])) && NumOf(tuples[k][pos]) == r.value.f)
      && (forall k :: 0 <= k < |tuples| && IsNumericType(TypeOf(tuples[k][pos])) ==> NumOf(tuples[k][pos]) <= r.value.f)
  {
    var vs := NumericColumn(tuples, pos).value;
    NumericColumnCount(tuples, pos);
    var m := MaxOf(vs);
    NumericColumnValues(tuples, pos, m);
    forall k | 0 <= k < |tuples| && IsNumericType(TypeOf(tuples[k][pos])) ensures NumOf(tuples[k][pos]) <= m {
      NumericColumnValues(tuples, pos, NumOf(tuples[k][pos]));
    }
  }

  /** `min` of a numeric column is one of its values and no value is below it. */
  lemma NumericMin(tuples: seq<Tuple>, pos: nat)
    requires ColumnIn(tuples, pos) && NumericColumn(tuples, pos).Ok? && NonNullCount(tuples, pos) > 0
    ensures var r := NumericColumnAggregate(tuples, pos, "min");
      r.Ok? && r.value.FloatVal?
      && (exists k :: 0 <= k < |tuples| && IsNumericType(TypeOf(tuples[k][pos])) && NumOf(tuples[k][pos]) == r.value.f)
      && (forall k :: 0 <= k < |tuples| && IsNumericType(TypeOf(tuples[k][pos])) ==> r.value.f <= NumOf(tuples[k][pos]))
  {
    var vs := NumericColumn(tuples, pos).value;
    NumericColumnCount(tuples, pos);
    var m := MinOf(vs);
    NumericColumnValues(tuples, pos, m);
    forall k | 0 <= k < |tuples| && IsNumericType(TypeOf(tuples[k][pos])) ensures m <= NumOf(tuples[k][pos]) {
      NumericColumnValues(tuples, pos, NumOf(tuples[k][pos]));
    }
  }

  /** `max` of a string column is one of its values and no value is greater. */
  lemma StringMax(tuples: seq<Tuple>, pos: nat)
    requires ColumnIn(tuples, pos) && StringColumn(tuples, pos).Ok? && NonNullCount(tuples, pos) > 0
    ensures var r := StringColumnAggregate(tuples, pos, "max");
      r.Ok? && r.value.CharsVal?
      && (exists k :: 0 <= k < |tuples| && IsStringType(TypeOf(tuples[k][pos])) && StrOf(tuples[k][pos]) == r.value.s)
      && (forall k :: 0 <= k < |tuples| && IsStringType(TypeOf(tuples[k][pos])) ==> StrCmp(StrOf(tuples[k][pos]), r.value.s) <= 0)
  {
    var ss := StringColumn(tuples, pos).value;
    StringColumnCount(tuples, pos);
    var m := StrMax(ss);
    StringColumnValues(tuples, pos, m);
    StrMaxIsGreatest(ss);
    forall k | 0 <= k < |tuples| && IsStringType(TypeOf(tuples[k][pos])) ensures StrCmp(StrOf(tuples[k][pos]), m) <= 0 {
      StringColumnValues(tuples, pos, StrOf(tuples[k][pos]));
    }
  }

  /** `min` of a string column is one of its values and no value is smaller. */
  lemma StringMin(tuples: seq<Tuple>, pos: nat)
    requires ColumnIn(tuples, pos) && StringColumn(tuples, pos).Ok? && NonNullCount(tuples, pos) > 0
    ensures var r := StringColumnAggregate(tuples, pos, "min");
      r.Ok? && r.value.CharsVal?
      && (exists k :: 0 <= k < |tuples| && IsStringType(TypeOf(tuples[k][pos])) && StrOf(tuples[k][pos]) == r.value.s)
      && (forall k :: 0 <= k < |tuples| && IsStringType(TypeOf(tuples[k][pos])) ==> StrCmp(r.value.s, StrOf(tuples[k][pos])) <= 0)
  {
    var ss := StringColumn(tuples, pos).value;
    StringColumnCount(tuples, pos);
    var m := StrMin(ss);
    StringColumnValues(tuples, pos, m);
    StrMinIsLeast(ss);
    forall k | 0 <= k < |tuples| && IsStringType(TypeOf(tuples[k][pos])) ensures StrCmp(m, StrOf(tuples[k][pos])) <= 0 {
      StringColumnValues(tuples, pos, StrOf(tuples[k][pos]));
    }
  }

  /** `avg` of a column of whole numbers is their exact mean. */
  lemma AvgOfIntegers(tuples: seq<Tuple>, pos: nat)
    requires ColumnIn(tuples, pos) && NumericColumn(tuples, pos).Ok? && NonNullCount(tuples, pos) > 0
    requires forall k :: 0 <= k < |tuples| ==> !tuples[k][pos].FloatVal?
    ensures var vs := NumericColumn(tuples, pos).value;
      NumericColumnAggregate(tuples, pos, "avg") == Ok(FloatVal(Sum(vs) / NonNullCount(tuples, pos) as real))
  {
    var vs := NumericColumn(tuples, pos).value;
    NumericColumnCount(tuples, pos);
    forall j | 0 <= j < |vs| ensures Integral(vs[j]) {
      NumericColumnValues(tuples, pos, vs[j]);
    }
    TruncSumOfIntegers(vs);
  }

  // ---------------------------------------------------------------------------
  // The loops of aggregate_numeric and aggregate_string

  method AggregateNumeric(tuples: seq<Tuple>, pos: nat, agg: string) returns (rc: Rc, v: Value)
    requires ColumnIn(tuples, pos)
    ensures rc == Success <==> NumericColumnAggregate(tuples, pos, agg).Ok?
    ensures rc == Success ==> v == NumericColumnAggregate(tuples, pos, agg).value
    ensures rc != Success ==> rc == SqlSyntax
  {
    var nums: seq<real> := [];
    var i := 0;
    while i < |tuples|
      invariant 0 <= i <= |tuples|
      invariant NumericColumn(tuples[..i], pos) == Ok(nums)
    {
      assert tuples[..i + 1][..i] == tuples[..i];
      match tuples[i][pos] {
      case NullVal =>
      case IntVal(n) => nums := nums + [n as real];
      case FloatVal(f) => nums := nums + [f];
      case _ =>
        assert NumericColumn(tuples[..i + 1], pos).Err?;
        NumericColumnPrefixFails(tuples, pos, i + 1);
        return SqlSyntax, NullVal;
      }
      i := i + 1;
    }
    assert tuples[..i] == tuples;
    var r := NumericAggregate(nums, agg);
    if r.Err? {
      return SqlSyntax, NullVal;
    }
    return Success, r.value;
  }

  /** Once a prefix of the column fails, the whole column fails. */
  lemma {:induction false} NumericColumnPrefixFails(tuples: seq<Tuple>, pos: nat, i: nat)
    requires ColumnIn(tuples, pos) && i <= |tuples| && NumericColumn(tuples[..i], pos).Err?
    ensures NumericColumn(tuples, pos).Err?
  {
    NumericColumnFails(tuples[..i], pos);
    var k :| 0 <= k < i && IsStringType(TypeOf(tuples[..i][k][pos]));
    assert tuples[..i][k] == tuples[k];
    NumericColumnFails(tuples, pos);
  }

  lemma {:induction false} StringColumnPrefixFails(tuples: seq<Tuple>, pos: nat, i: nat)
    requires ColumnIn(tuples, pos) && i <= |tuples| && StringColumn(tuples[..i], pos).Err?
    ensures StringColumn(tuples, pos).Err?
  {
    StringColumnFails(tuples[..i], pos);
    var k :| 0 <= k < i && IsNumericType(TypeOf(tuples[..i][k][pos]));
    assert tuples[..i][k] == tuples[k];
    StringColumnFails(tuples, pos);
  }

  method AggregateString(tuples: seq<Tuple>, pos: nat, agg: string) returns (rc: Rc, v: Value)
    requires ColumnIn(tuples, pos)
    ensures rc == Success <==> StringColumnAggregate(tuples, pos, agg).Ok?
    ensures rc == Success ==> v == StringColumnAggregate(tuples, pos, agg).value
    ensures rc != Success ==> rc == SqlSyntax
  {
    var strs: seq<string> := [];
    var i := 0;
    while i < |tuples|
      invariant 0 <= i <= |tuples|
      invariant StringColumn(tuples[..i], pos) == Ok(strs)
    {
      assert tuples[..i + 1][..i] == tuples[..i];
      match tuples[i][pos] {
      case NullVal =>
      case CharsVal(s) => strs := strs + [s];
      case DateVal(d) => strs := strs + [d];
      case _ =>
        assert StringColumn(tuples[..i + 1], pos).Err?;
        StringColumnPrefixFails(tuples, pos, i + 1);
        return SqlSyntax, NullVal;
      }
      i := i + 1;
    }
    assert tuples[..i] == tuples;
    var r := StringAggregate(strs, agg);
    if r.Err? {
      return SqlSyntax, NullVal;
    }
    return Success, CharsVal(r.value);
  }

  // ---------------------------------------------------------------------------
  // aggregate

  /** The column and value an aggregate item contributes. */
  datatype Cell = Cell(column: TupleField, value: Value)

  /**
   * One aggregate item over the filtered tuples: `count(*)`, a numeric
   * literal (which only the empty name is taken for, whose value is 0), or a
   * column resolved as in the select list. A column of a type other than
   * numbers and strings contributes nothing.
   */
  function AggregateItem(schema: Schema, relations: seq<string>, tuples: seq<Tuple>, agg: Option<string>, a: RelAttr)
    : (r: Result<Option<Cell>>)
    requires Widths(tuples, |schema|)
    ensures r.Err? ==> r.rc == SqlSyntax
  {
    if agg.None? || a.attribute.None? then Err(SqlSyntax)
    else
      var name := agg.value;
      var field := a.attribute.value;
      if NumericName(field, IsDigit) || field == "*" then
        var column := TupleField(Floats, "", field, Some(name));
        if name == "count" then Ok(Some(Cell(column, FloatVal(|tuples| as real))))
        else if NumericName(field, IsDigit) && name in {"max", "min", "avg"} then Ok(Some(Cell(column, FloatVal(0.0))))
        else Err(SqlSyntax)
      else
        match ColumnTable(schema, relations, a)
        case None => Err(SqlSyntax)
        case Some(t) =>
          var pos := IndexOfField(schema, t, field);
          if pos == -1 then Err(SqlSyntax)
          else if IsNumericType(schema[pos].ftype) then
            match NumericColumnAggregate(tuples, pos, name)
            case Err(e) => Err(e)
            case Ok(v) => Ok(Some(Cell(TupleField(Floats, t, field, Some(name)), v)))
          else if IsStringType(schema[pos].ftype) then
            match StringColumnAggregate(tuples, pos, name)
            case Err(e) => Err(e)
            case Ok(v) => Ok(Some(Cell(TupleField(Chars, t, field, Some(name)), v)))
          else Ok(None)
  }

  /** `count(*)` is the number of filtered tuples; `*` with any other function is a syntax error. */
  lemma CountStar(schema: Schema, relations: seq<string>, tuples: seq<Tuple>, agg: string, table: Option<string>)
    requires Widths(tuples, |schema|)
    ensures var r := AggregateItem(schema, relations, tuples, Some(agg), RelAttr(table, Some("*")));
      (agg == "count" ==> r == Ok(Some(Cell(TupleField(Floats, "", "*", Some("count")), FloatVal(|tuples| as real)))))
      && (agg != "count" ==> r == Err(SqlSyntax))
  {
    NumericNameIffEmpty("*", IsDigit);
  }

  /** The columns and values of the first `n` items, in item order; the first failing item stops it. */
  function AggregateFrom(schema: Schema, relations: seq<string>, tuples: seq<Tuple>,
                         aggregates: seq<Option<string>>, attrs: seq<RelAttr>, n: nat)
    : (r: Result<(Schema, Tuple)>)
    requires Widths(tuples, |schema|) && n <= |aggregates| <= |attrs|
    ensures r.Err? ==> r.rc == SqlSyntax
    ensures r.Ok? ==> |r.value.0| == |r.value.1| <= n
  {
    if n == 0 then Ok(([], []))
    else
      match AggregateFrom(schema, relations, tuples, aggregates, attrs, n - 1)
      case Err(e) => Err(e)
      case Ok(acc) =>
        match AggregateItem(schema, relations, tuples, aggregates[n - 1], attrs[n - 1])
        case Err(e) => Err(e)
        case Ok(None) => Ok(acc)
        case Ok(Some(c)) => Ok((acc.0 + [c.column], acc.1 + [c.value]))
  }

  /** The result of an aggregate query: one tuple holding every item's value. */
  function AggregateSpec(schema: Schema, relations: seq<string>, tuples: seq<Tuple>,
                         aggregates: seq<Option<string>>, attrs: seq<RelAttr>)
    : (r: Result<TupleSet>)
    requires Widths(tuples, |schema|) && |aggregates| <= |attrs|
    ensures r.Err? ==> r.rc == SqlSyntax
    ensures r.Ok? ==> |r.value.tuples| == 1 && |r.value.tuples[0]| == |r.value.schema|
  {
    match AggregateFrom(schema, relations, tuples, aggregates, attrs, |aggregates|)
    case Err(e) => Err(e)
    case Ok(acc) => Ok(TupleSet(acc.0, [acc.1]))
  }

  /** Any failing item fails the whole query. */
  lemma {:induction false} AggregateFromFails(schema: Schema, relations: seq<string>, tuples: seq<Tuple>,
                                              aggregates: seq<Option<string>>, attrs: seq<RelAttr>, n: nat, k: nat)
    requires Widths(tuples, |schema|) && n <= |aggregates| <= |attrs| && k < n
    requires AggregateItem(schema, relations, tuples, aggregates[k], attrs[k]).Err?
    ensures AggregateFrom(schema, relations, tuples, aggregates, attrs, n) == Err(SqlSyntax)
  {
    if k < n - 1 {
      AggregateFromFails(schema, relations, tuples, aggregates, attrs, n - 1, k);
    }
  }

  /** When every item contributes, the result has one column per item, in item order. */
  lemma {:induction false} AggregateFromAll(schema: Schema, relations: seq<string>, tuples: seq<Tuple>,
                                            aggregates: seq<Option<string>>, attrs: seq<RelAttr>, n: nat)
    requires Widths(tuples, |schema|) && n <= |aggregates| <= |attrs|
    requires forall j :: 0 <= j < n ==> AggregateItem(schema, relations, tuples, aggregates[j], attrs[j]).Ok?
                                        && AggregateItem(schema, relations, tuples, aggregates[j], attrs[j]).value.Some?
    ensures var r := AggregateFrom(schema, relations, tuples, aggregates, attrs, n);
      r.Ok? && |r.value.0| == n
      && forall j :: 0 <= j < n ==>
           Some(Cell(r.value.0[j], r.value.1[j])) == AggregateItem(schema, relations, tuples, aggregates[j], attrs[j]).value
  {
    if n > 0 {
      AggregateFromAll(schema, relations, tuples, aggregates, attrs, n - 1);
    }
  }

  /** The body of `aggregate`'s loop for one item: its column and value, or nothing. */
  method AggregateOne(schema: Schema, relations: seq<string>, tuples: seq<Tuple>, agg: Option<string>, a: RelAttr)
    returns (rc: Rc, cell: Option<Cell>)
    requires Widths(tuples, |schema|)
    ensures rc == Success <==> AggregateItem(schema, relations, tuples, agg, a).Ok?
    ensures rc == Success ==> cell == AggregateItem(schema, relations, tuples, agg, a).value
    ensures rc != Success ==> rc == SqlSyntax
  {
    cell := None;
    if agg.None? || a.attribute.None? {
      return SqlSyntax, cell;
    }
    var name := agg.value;
    var field := a.attribute.value;
    var isNumeric := FieldNameIsNumeric(field, IsDigit);
    if isNumeric || field == "*" {
      var column := TupleField(Floats, "", field, Some(name));
      if name == "count" {
        return Success, Some(Cell(column, FloatVal(|tuples| as real)));
      } else if isNumeric && (name == "max" || name == "min" || name == "avg") {
        return Success, Some(Cell(column, FloatVal(0.0)));
      }
      return SqlSyntax, cell;
    }
    var table := a.relation;
    if table.None? {
      table := GetUniqueTableName(schema, relations, field);
      if table.None? {
        return SqlSyntax, cell;
      }
    }
    var t := table.value;
    var pos := IndexOfField(schema, t, field);
    if pos == -1 {
      return SqlSyntax, cell;
    }
    var v;
    if IsNumericType(schema[pos].ftype) {
      rc, v := AggregateNumeric(tuples, pos, name);
      if rc == Success {
        cell := Some(Cell(TupleField(Floats, t, field, Some(name)), v));
      }
    } else if IsStringType(schema[pos].ftype) {
      rc, v := AggregateString(tuples, pos, name);
      if rc == Success {
        cell := Some(Cell(TupleField(Chars, t, field, Some(name)), v));
      }
    } else {
      rc := Success;
    }
  }

  /** The executor's `aggregate`. */
  method Aggregate(schema: Schema, relations: seq<string>, tuples: seq<Tuple>,
                   aggregates: seq<Option<string>>, attrs: seq<RelAttr>)
    returns (rc: Rc, result: TupleSet)
    requires Widths(tuples, |schema|) && |aggregates| <= |attrs|
    ensures rc == Success <==> AggregateSpec(schema, relations, tuples, aggregates, attrs).Ok?
    ensures rc == Success ==> result == AggregateSpec(schema, relations, tuples, aggregates, attrs).value
    ensures rc != Success ==> rc == SqlSyntax
  {
    var aggSchema: Schema := [];
    var aggTuple: Tuple := [];
    result := TupleSet([], []);
    var i := 0;
    while i < |aggregates|
      invariant 0 <= i <= |aggregates|
      invariant AggregateFrom(schema, relations, tuples, aggregates, attrs, i) == Ok((aggSchema, aggTuple))
    {
      rc, aggSchema, aggTuple := AggregateNext(schema, relations, tuples, aggregates, attrs, i, aggSchema, aggTuple);
      if rc != Success {
        return rc, result;
      }
      i := i + 1;
    }
    return Success, TupleSet(aggSchema, [aggTuple]);
  }

  /** One iteration of `aggregate`'s loop: the row extended by item `i`'s cell, or the error that ends the query. */
  method AggregateNext(schema: Schema, relations: seq<string>, tuples: seq<Tuple>,
                       aggregates: seq<Option<string>>, attrs: seq<RelAttr>, i: nat,
                       aggSchema: Schema, aggTuple: Tuple)
    returns (rc: Rc, nextSchema: Schema, nextTuple: Tuple)
    requires Widths(tuples, |schema|) && i < |aggregates| <= |attrs|
    requires AggregateFrom(schema, relations, tuples, aggregates, attrs, i) == Ok((aggSchema, aggTuple))
    ensures rc == Success ==>
      AggregateFrom(schema, relations, tuples, aggregates, attrs, i + 1) == Ok((nextSchema, nextTuple))
    ensures rc != Success ==> rc == SqlSyntax && AggregateSpec(schema, relations, tuples, aggregates, attrs) == Err(rc)
  {
    var cell;
    rc, cell := AggregateOne(schema, relations, tuples, aggregates[i], attrs[i]);
    nextSchema, nextTuple := aggSchema, aggTuple;
    if rc != Success {
      AggregateFromFails(schema, relations, tuples, aggregates, attrs, |aggregates|, i);
      return;
    }
    if cell.Some? {
      nextSchema, nextTuple := aggSchema + [cell.value.column], aggTuple + [cell.value.value];
    }
  }
}
