/*
 * Tuple schemas and tuples: the logical rows the executor moves around.
 * `IndexOfField` is the first-match lookup by (table, field) that every
 * stage uses; `FromTable` lists a table's columns as a schema.
 */
module Schemas {
  import opened Common

  /** A column of a logical tuple; `aggregate` names the function of an aggregate column. */
  datatype TupleField = TupleField(ftype: AttrType, table: string, field: string, aggregate: Option<string>)

  type Schema = seq<TupleField>

  type Tuple = seq<Value>

  datatype TupleSet = TupleSet(schema: Schema, tuples: seq<Tuple>)

  /** Every tuple of `ts` has `w` values. */
  predicate Widths(ts: seq<Tuple>, w: nat) {
    forall k :: 0 <= k < |ts| ==> |ts[k]| == w
  }

  predicate Names(f: TupleField, table: string, field: string) {
    f.table == table && f.field == field
  }

  /** Index of the first column named `table.field`, or -1 when there is none. */
  function IndexOfField(s: Schema, table: string, field: string): (r: int)
    ensures -1 <= r < |s|
    ensures r >= 0 ==> Names(s[r], table, field)
    ensures r >= 0 ==> forall k :: 0 <= k < r ==> !Names(s[k], table, field)
    ensures r == -1 <==> forall k :: 0 <= k < |s| ==> !Names(s[k], table, field)
  {
    if s == [] then -1
    else if Names(s[0], table, field) then 0
    else
      var k := IndexOfField(s[1..], table, field);
      if k == -1 then -1 else k + 1
  }

  /** A lookup in a prefix agrees with the lookup in the whole schema when it succeeds. */
  lemma {:induction false} IndexOfFieldAppend(s: Schema, t: Schema, table: string, field: string)
    ensures IndexOfField(s + t, table, field) ==
      (if IndexOfField(s, table, field) != -1 then IndexOfField(s, table, field)
       else if IndexOfField(t, table, field) == -1 then -1
       else |s| + IndexOfField(t, table, field))
  {
    var r := IndexOfField(s + t, table, field);
    var a := IndexOfField(s, table, field);
    var b := IndexOfField(t, table, field);
    if a != -1 {
      assert (s + t)[a] == s[a];
      forall k | 0 <= k < a ensures !Names((s + t)[k], table, field) {
        assert (s + t)[k] == s[k];
      }
    } else if b == -1 {
      forall k | 0 <= k < |s + t| ensures !Names((s + t)[k], table, field) {
        if k < |s| { assert (s + t)[k] == s[k]; } else { assert (s + t)[k] == t[k - |s|]; }
      }
    } else {
      assert (s + t)[|s| + b] == t[b];
      forall k | 0 <= k < |s| + b ensures !Names((s + t)[k], table, field) {
        if k < |s| { assert (s + t)[k] == s[k]; } else { assert (s + t)[k] == t[k - |s|]; }
      }
    }
  }

  /** The schema of a stored table: one column per field, in declaration order. */
  function FromTable(table: string, metas: seq<FieldMeta>): (s: Schema)
    ensures |s| == |metas|
    ensures forall i :: 0 <= i < |s| ==>
      s[i] == TupleField(metas[i].ftype, table, metas[i].name, None)
  {
    seq(|metas|, i requires 0 <= i < |metas| => TupleField(metas[i].ftype, table, metas[i].name, None))
  }

  /**
   * Appends `f` unless a column with the same table and field is already
   * present. The schema only grows, by at most that one column, and
   * afterwards the column is found where it was, or at the end.
   */
  function AddIfNotExists(s: Schema, f: TupleField): (r: Schema)
    ensures s <= r && |r| <= |s| + 1
    ensures IndexOfField(s, f.table, f.field) == -1 ==> r == s + [f]
    ensures IndexOfField(s, f.table, f.field) != -1 ==> r == s
    ensures IndexOfField(r, f.table, f.field) ==
      (if IndexOfField(s, f.table, f.field) == -1 then |s| else IndexOfField(s, f.table, f.field))
  {
    if IndexOfField(s, f.table, f.field) == -1 then
      IndexOfFieldAppend(s, [f], f.table, f.field);
      s + [f]
    else s
  }

  /**
   * A column `table.n` is found in the table's schema exactly when the table
   * has a field `n`, and the column found has that field's type; no column
   * of any other table is found in it.
   */
  lemma {:induction false} FromTableFinds(table: string, metas: seq<FieldMeta>, t: string, n: string)
    ensures t != table ==> IndexOfField(FromTable(table, metas), t, n) == -1
    ensures t == table ==> (IndexOfField(FromTable(table, metas), t, n) != -1 <==> FindFieldMeta(metas, n).Some?)
    ensures t == table && FindFieldMeta(metas, n).Some? ==>
      FromTable(table, metas)[IndexOfField(FromTable(table, metas), t, n)].ftype == FindFieldMeta(metas, n).value.ftype
    decreases |metas|
  {
    var s := FromTable(table, metas);
    if metas != [] {
      var rest := FromTable(table, metas[1..]);
      assert s == [s[0]] + rest;
      IndexOfFieldAppend([s[0]], rest, t, n);
      FromTableFinds(table, metas[1..], t, n);
    }
  }
}
