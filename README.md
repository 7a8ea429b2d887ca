# miniob SELECT execution, modelled in Dafny

This project models how the miniob database server runs a `SELECT` once the
query is parsed. The model covers the executor in
`src/observer/sql/executor/select_executor.cpp` and the record filters in
`src/observer/storage/common/condition_filter.cpp`. It follows the query
through these stages:

1. **Scan nodes.** The executor builds one scan node per relation, from the
   last relation of the parsed list to the first, because the parser stores
   the relations reversed. Each node gets the conditions that concern its
   table alone. Each of those conditions is bound into a
   `DefaultConditionFilter`: both sides are resolved against the table's
   columns, the types are checked, and the fields are stored.
2. **Join.** The tables' tuple sets are joined in that same order. The join
   starts from one empty tuple. At each step a fresh `TupleFilter` binds the
   column-vs-column conditions between the schema built so far and the next
   table, and keeps only the pairs it accepts.
3. **ORDER BY.** When the query orders its rows, each order item becomes a
   column position, and the joined tuples are sorted stably in place.
4. **Result.** Without aggregates, the select list becomes the result schema
   and every joined tuple is cut down to it (`TupleProjcet`). With
   aggregates, the tuples collapse into a single row: `count`, `avg`, `max`
   and `min` over numeric columns, and `count`, `max` and `min` over string
   columns.

Every operation that changes state is an imperative Dafny method. This
covers:
- the filter classes, with their fields and `modifies` clauses;
- the executor's loops, with their invariants;
- the in-place stable sort on an `array`.

Each such method is proved against a specification function, and the
properties the source promises are lemmas about those functions. Among them:
- IS NULL and IS NOT NULL semantics;
- the type rule of binding;
- that the push-down selects exactly the conditions its rule names;
- that the join is sound and complete with respect to the filter, and is
  the full cartesian product when there are no conditions;
- that the sort is a sorted, stable permutation, and is the only such
  result;
- that ORDER BY only rearranges the rows of a projection;
- what each aggregate means;
- that the error codes of planning, binding, joining, ordering, projection and
  aggregation are passed on unchanged.

Modules, in dependency order:
- `Common`: return codes, types, operators, values, `strcmp` order, the
  parsed query.
- `Schemas`: tuple schemas, `index_of_field`, `from_table`,
  `add_if_not_exists`.
- `ConditionFilters`: `condition_filter.cpp`.
- `NameResolution`: `match_table`, `get_unique_table_name`.
- `TupleFilters`: `TupleFilter`.
- `Planner`: `create_select_exe_node`, `select_all_table_tuple_sets`.
- `Join`: `select_filter_tuples`.
- `Ordering`: `order_tuples`.
- `Projection`: `get_select_tuple_schema`, `TupleProjcet`, `project`.
- `Aggregation`: `field_name_is_numeric`, `aggregate`, `aggregate_numeric`,
  `aggregate_string`.
- `Executor`: `execute(TupleSet &)`.

## Model

| member | source | states |
|---|---|---|
| Common.NumCmp | src/observer/storage/common/condition_filter.cpp:164-173 | the three-way comparison of two numbers is negative, zero or positive exactly when the first is smaller, equal or greater |
| Common.StrCmp | src/observer/storage/common/condition_filter.cpp:158-161 | `strcmp` order: the result is -1, 0 or 1 |
| Common.StrCmpEqual | src/observer/storage/common/condition_filter.cpp:158-161 | `strcmp` gives 0 exactly when the two strings are equal |
| Common.StrCmpAntisymmetric | src/observer/storage/common/condition_filter.cpp:158-161 | swapping the operands of `strcmp` negates its result |
| Common.StrCmpTransitive | src/observer/sql/executor/select_executor.cpp:610-615 | "not greater" under `strcmp` is transitive, as `std::max_element` and `std::min_element` require |
| Common.Reversed | src/observer/sql/executor/select_executor.cpp:286-288 | walking the relations from the last to the first: same length, element `i` is element `n-1-i` |
| Common.FindFieldMeta | src/observer/storage/common/condition_filter.cpp:101-103 | a column found by name belongs to the table and has that name; no column found means the table has no column of that name |
| Common.WellFormedPairIsOrdinary | src/observer/sql/executor/select_executor.cpp:17-34 | a well-formed column-vs-column condition uses one of the six comparison operators, so `judge_cmp_result` never reaches its panic |
| Schemas.IndexOfField | src/observer/sql/executor/select_executor.cpp:48-56 | the position of the first column with that table and field name, and -1 exactly when no column has them |
| Schemas.IndexOfFieldAppend | src/observer/sql/executor/select_executor.cpp:336-338 | after a schema is appended to, a column found in the original part is found at the same position |
| Schemas.FromTableFinds | src/observer/sql/executor/select_executor.cpp:152-161 | a column `table.n` is found in a table's schema exactly when the table has a field `n`, with that field's type; no column of another table is found in it |
| Schemas.AddIfNotExists | src/observer/sql/executor/select_executor.cpp:184-185 | the schema only grows, by at most the one column, which is appended exactly when no column has its table and field name; afterwards the column is found where it already was, or at the end |
| ConditionFilters.JudgeAgreesWithOrder | src/observer/storage/common/condition_filter.cpp:30-47 | judging the three-way comparison of two numbers by an operator gives exactly the relation that operator names on them |
| ConditionFilters.JudgeCmpResult | src/observer/storage/common/condition_filter.cpp:30-47 | each of the six operators accepts a three-way comparison result exactly when the result stands in that operator's relation to zero |
| ConditionFilters.JudgeNegated | src/observer/storage/common/condition_filter.cpp:30-47 | each operator's complement (`=`/`<>`, `<`/`>=`, `>`/`<=`) gives the opposite verdict on every comparison result |
| ConditionFilters.ValueCompare | src/observer/storage/common/condition_filter.cpp:150-176 | a comparison with a NULL side, or between types that cannot be compared, is false; IS NULL holds exactly when both sides are NULL; IS NOT NULL holds exactly when one side is NULL |
| ConditionFilters.ValueCompareNumeric | src/observer/storage/common/condition_filter.cpp:164-173 | INTS and FLOATS, in any combination, compare as numbers by the operator's relation |
| ConditionFilters.ValueCompareStringEquality | src/observer/storage/common/condition_filter.cpp:158-162 | CHARS and DATES, in any combination, are equal exactly when their characters are, and not equal exactly when they differ |
| ConditionFilters.ValueCompareStringMirror | src/observer/storage/common/condition_filter.cpp:158-162 | for strings, `a < b` holds exactly when `b > a` does, and `a <= b` exactly when `b >= a` |
| ConditionFilters.CheckBinding | src/observer/storage/common/condition_filter.cpp:63-89 | fails with INVALID_ARGUMENT exactly when a type lies outside (UNDEFINED, DATES] or the operator outside [EQUAL_TO, NO_OP); otherwise it stores all five fields as given |
| ConditionFilters.ResolveSide | src/observer/storage/common/condition_filter.cpp:99-131 | a column side fails with SCHEMA_FIELD_MISSING exactly when the table has no column of that name, and otherwise resolves to a column of that name with the column's type; a literal keeps its value and its own type |
| ConditionFilters.Bind | src/observer/storage/common/condition_filter.cpp:91-148 | a successful binding is complete and in range, keeps the condition's operator, and has compatible types; for a well-formed condition a null test has its NULL literal; a failure is SCHEMA_FIELD_MISSING, SCHEMA_FIELD_TYPE_MISMATCH or INVALID_ARGUMENT |
| ConditionFilters.BindFieldMissing | src/observer/storage/common/condition_filter.cpp:99-131 | binding fails with SCHEMA_FIELD_MISSING exactly when a column side does not resolve, and a column name the table lacks on either side always causes it |
| ConditionFilters.BindTypeRule | src/observer/storage/common/condition_filter.cpp:141-147 | once both sides resolve, binding fails with a type mismatch exactly when the types are not compatible (equal, NULL on a side, or both numeric) |
| ConditionFilters.BindRejectsCharsAgainstDates | src/observer/storage/common/condition_filter.cpp:141-147 | a CHARS side against a DATES side is a type mismatch, in either order |
| ConditionFilters.BindStoresFields | src/observer/storage/common/condition_filter.cpp:141-145 | with both sides resolved, compatible, in-range types and an operator other than NO_OP, the binding holds both sides, both types and the operator |
| ConditionFilters.BindAll | src/observer/storage/common/condition_filter.cpp:250-266 | binding a list of conditions yields one binding per condition; a failure carries one of the binding error codes |
| ConditionFilters.BindAllElements | src/observer/storage/common/condition_filter.cpp:251-266 | a successful list binding holds at each position that condition's own binding |
| ConditionFilters.BindAllFails | src/observer/storage/common/condition_filter.cpp:251-264 | binding a list fails exactly when some condition of it fails to bind |
| ConditionFilters.BindAllFirstError | src/observer/storage/common/condition_filter.cpp:254-264 | a failing list binding returns the code of the first failing condition, and every condition before it binds |
| ConditionFilters.BindAllSnoc | src/observer/storage/common/condition_filter.cpp:251-266 | one more condition either extends the list's bindings with its own or fails with its code |
| ConditionFilters.BindAllKeepsError | src/observer/storage/common/condition_filter.cpp:255-264 | once a prefix of the list fails, the whole list fails with the same code |
| ConditionFilters.SideValue | src/observer/storage/common/condition_filter.cpp:181-212 | a literal side is its value; a nullable column is NULL when its indicator byte is set and is otherwise read after that byte; a non-nullable column is read at its offset; a column that is read carries the bound type as its type |
| ConditionFilters.Decode | src/observer/storage/common/condition_filter.cpp:188-195 | a column read under a bound type gives a value of exactly that type: the filter stores the bound type as the value's type tag |
| ConditionFilters.DefaultConditionFilter.constructor | src/observer/storage/common/condition_filter.cpp:51-59 | a new filter has neither side bound |
| ConditionFilters.DefaultConditionFilter.InitChecked | src/observer/storage/common/condition_filter.cpp:63-89 | stores exactly the five given fields when the types and the operator are in range; otherwise returns INVALID_ARGUMENT and changes nothing |
| ConditionFilters.DefaultConditionFilter.Init | src/observer/storage/common/condition_filter.cpp:91-148 | a successful initialisation leaves the filter holding the condition's binding; a failure returns the binding's error code and changes nothing |
| ConditionFilters.DefaultConditionFilter.Filter | src/observer/storage/common/condition_filter.cpp:178-219 | a record whose side reads NULL, by literal or by indicator byte, fails an ordinary comparison; an accepted record is a null test or has comparable side values |
| ConditionFilters.IsNullFilterReadsIndicator | src/observer/storage/common/condition_filter.cpp:182-190 | `col IS NULL` on a nullable column not bound as NULLS accepts a record exactly when its indicator byte is set |
| ConditionFilters.NewFilters | src/observer/storage/common/condition_filter.cpp:250-266 | one new filter per condition, each holding that condition's binding; the first failing condition's code otherwise |
| ConditionFilters.CompositeConditionFilter.constructor | src/observer/storage/common/condition_filter.cpp:221-226 | a new composite filter holds no filters and owns no memory, so destroying it frees nothing |
| ConditionFilters.CompositeConditionFilter.InitWith | src/observer/storage/common/condition_filter.cpp:228-238 | takes over the given filters and the ownership flag |
| ConditionFilters.CompositeConditionFilter.Init | src/observer/storage/common/condition_filter.cpp:240-269 | no conditions: success, nothing changes; no condition array: INVALID_ARGUMENT; a condition that fails to bind: its code, nothing kept; otherwise one new filter per condition with its binding, owned by the composite |
| ConditionFilters.CompositeConditionFilter.Filter | src/observer/storage/common/condition_filter.cpp:271-278 | accepts a record exactly when every filter accepts it |
| NameResolution.Holders | src/observer/sql/executor/select_executor.cpp:449-458 | the positions of exactly the relations whose columns include the field, in increasing order |
| NameResolution.MatchTable | src/observer/sql/executor/select_executor.cpp:133-140 | a side naming the table always matches it; with more than one relation only a side naming the table matches it |
| NameResolution.UniqueTableName | src/observer/sql/executor/select_executor.cpp:445-459 | a relation returned for a bare column name is one of the query's relations and its columns include the field |
| NameResolution.ColumnTable | src/observer/sql/executor/select_executor.cpp:206-213 | a column with a table name belongs to that table; a bare column name belongs to a relation of the query whose columns include it |
| NameResolution.HoldersGrow | src/observer/sql/executor/select_executor.cpp:449-458 | a prefix of the relations never has more holders than the whole list |
| NameResolution.UniqueTableNameIff | src/observer/sql/executor/select_executor.cpp:445-460 | a bare column name resolves to `t` exactly when one relation, and no other, holds the column, and that relation is `t` |
| NameResolution.UniqueTableNameAmbiguous | src/observer/sql/executor/select_executor.cpp:452-455 | a column held by two relations does not resolve |
| NameResolution.GetUniqueTableName | src/observer/sql/executor/select_executor.cpp:445-460 | the loop with its early return computes the unique holder, or none |
| TupleFilters.BindPair | src/observer/sql/executor/select_executor.cpp:43-85 | a column-vs-column condition binds to the first matching column on each side, which share the bound type; it is a mismatch exactly when both columns are found with different types; otherwise it is dropped |
| TupleFilters.JoinBindings | src/observer/sql/executor/select_executor.cpp:41-87 | initialisation returns only SUCCESS or SCHEMA_FIELD_TYPE_MISMATCH |
| TupleFilters.JoinBindingsSound | src/observer/sql/executor/select_executor.cpp:79-84 | every binding made is that of a column-vs-column condition of the list |
| TupleFilters.JoinBindingsSuccess | src/observer/sql/executor/select_executor.cpp:41-87 | initialisation succeeds exactly when no condition is a mismatch, and then it holds the bindings of the conditions that bind, in order |
| TupleFilters.JoinBindingsMismatch | src/observer/sql/executor/select_executor.cpp:75-77 | a mismatch stops initialisation with the bindings made before the first mismatching condition |
| TupleFilters.JoinBindingsStep | src/observer/sql/executor/select_executor.cpp:41-86 | one more condition adds nothing when dropped, stops on a mismatch, and appends its binding otherwise |
| TupleFilters.JoinBindingsMismatchStops | src/observer/sql/executor/select_executor.cpp:75-77 | a prefix of the conditions that ends in a mismatch decides the whole result |
| TupleFilters.UnfoundRightSideDropped | src/observer/sql/executor/select_executor.cpp:44-57 | a column-vs-column condition whose right side names no column of the right schema adds no binding and no error |
| TupleFilters.ReversedConditionDropped | src/observer/sql/executor/select_executor.cpp:40-86 | joining `t1` with `t2`, `t1.id = t2.id` is bound while `t2.id = t1.id` is dropped |
| TupleFilters.FindColumn | src/observer/sql/executor/select_executor.cpp:48-56 | the inline scan finds the first column with that table and field, with its type, and -1 with UNDEFINED when there is none |
| TupleFilters.BindCondition | src/observer/sql/executor/select_executor.cpp:43-85 | the loop body for one condition yields that condition's binding |
| TupleFilters.TupleFilter.constructor | src/observer/sql/executor/select_executor.cpp:347 | a new join filter holds no bindings |
| TupleFilters.TupleFilter.Init | src/observer/sql/executor/select_executor.cpp:36-88 | returns the initialisation's code, appends its bindings, and keeps every bound operator a comparison |
| TupleFilters.TupleFilter.Filter | src/observer/sql/executor/select_executor.cpp:90-108 | accepts a pair exactly when every bound condition holds on it: same type, neither value NULL, and the comparison satisfies the operator |
| Planner.Pushed | src/observer/sql/executor/select_executor.cpp:250-263 | a table never receives more conditions than the query has |
| Planner.PushedMembers | src/observer/sql/executor/select_executor.cpp:250-263 | a condition is pushed down to a table exactly when it is in the query and the push-down rule selects it for that table |
| Planner.PushedDown | src/observer/sql/executor/select_executor.cpp:250-263 | a condition goes to a table exactly when each of its column sides matches that table; a literal-vs-literal condition goes to every table |
| Planner.PushedPrefix | src/observer/sql/executor/select_executor.cpp:250-276 | the conditions pushed down from a prefix of the query are a prefix of those pushed down from all of it, so the query order is kept |
| Planner.PushedDownNamedTables | src/observer/sql/executor/select_executor.cpp:252-262 | a column side that names another table keeps a condition away from a table, and a condition between two literals reaches every table |
| Planner.PushedDownSingleRelation | src/observer/sql/executor/select_executor.cpp:133-140 | with a single relation, every condition whose columns are unqualified or name that relation is pushed down to it |
| Planner.NodeSpec | src/observer/sql/executor/select_executor.cpp:235-280 | a scan node exists exactly when the table exists and its pushed-down conditions all bind; the node has the table's schema and those bindings; an unknown table is SCHEMA_TABLE_NOT_EXIST |
| Planner.NewFilter | src/observer/sql/executor/select_executor.cpp:264-266 | a new filter holds the condition's binding, or the binding's error code is returned |
| Planner.CreateSelectExeNode | src/observer/sql/executor/select_executor.cpp:235-280 | builds the scan node of the specification, with one new filter per pushed-down condition, or returns its error code |
| Planner.PushedBindings | src/observer/sql/executor/select_executor.cpp:250-276 | a failing push-down fails with one of the binding error codes |
| Planner.PushedBindingsAgree | src/observer/sql/executor/select_executor.cpp:250-276 | binding the conditions while selecting them is the same as binding the selected conditions in order |
| Planner.PushedBindingsKeepsError | src/observer/sql/executor/select_executor.cpp:267-273 | the first condition that fails to bind decides the push-down's result |
| Planner.PushDownFilters | src/observer/sql/executor/select_executor.cpp:248-276 | the loop yields new filters holding the pushed-down bindings, or the first binding error |
| Planner.PushStep | src/observer/sql/executor/select_executor.cpp:251-275 | one iteration extends the bindings of the conditions seen so far, or ends with the failing code |
| Planner.PlanNodes | src/observer/sql/executor/select_executor.cpp:287-299 | planning yields one node per table, and a failure is never SUCCESS |
| Planner.PlanNodesAt | src/observer/sql/executor/select_executor.cpp:287-299 | each planned node is the scan node of its table |
| Planner.PlanNodesFail | src/observer/sql/executor/select_executor.cpp:290-297 | planning fails exactly when some table's scan node fails |
| Planner.PlanNodesKeepsError | src/observer/sql/executor/select_executor.cpp:291-297 | once a prefix of the tables fails to plan, the whole plan fails with the same code |
| Planner.AllTupleSets | src/observer/sql/executor/select_executor.cpp:282-324 | no relation is SQL_SYNTAX; an unknown table is an error; otherwise one tuple set per relation, the last relation first, each being that table scanned with its pushed-down conditions |
| Planner.ScanAllReversed | src/observer/sql/executor/select_executor.cpp:306-317 | the planned nodes of the reversed relations, scanned, give each relation's tuple set at its reversed position |
| Planner.SelectAllTableTupleSets | src/observer/sql/executor/select_executor.cpp:282-324 | the method yields exactly the tuple sets of the specification, or its error code |
| Planner.PlanAll | src/observer/sql/executor/select_executor.cpp:287-299 | the planning loop yields the nodes of the relations from last to first, or the first failing code |
| Planner.PlanStep | src/observer/sql/executor/select_executor.cpp:288-298 | one iteration extends the plan of the relations after it, or its failure is the whole plan's failure |
| Planner.PlanNode | src/observer/sql/executor/select_executor.cpp:289-290 | one table's node, seen through the bindings its filters hold |
| Planner.RunScans | src/observer/sql/executor/select_executor.cpp:306-317 | runs each planned scan, in order |
| Join.JoinBindingsValid | src/observer/sql/executor/select_executor.cpp:79-84 | the bindings of well-formed conditions use comparison operators and positions that lie within both schemas |
| Join.Row | src/observer/sql/executor/select_executor.cpp:354-361 | a running tuple's row has no more tuples than the table's set |
| Join.Product | src/observer/sql/executor/select_executor.cpp:354-361 | filtering the pairs never yields more tuples than the cartesian product of the two sets |
| Join.ProductWidths | src/observer/sql/executor/select_executor.cpp:358-360 | every joined tuple has as many values as the two schemas together |
| Join.RowSound | src/observer/sql/executor/select_executor.cpp:354-361 | every tuple of a row is the running tuple followed by a tuple of the set that the filter accepts |
| Join.RowComplete | src/observer/sql/executor/select_executor.cpp:354-361 | every tuple of the set that the filter accepts appears in the row |
| Join.ProductSound | src/observer/sql/executor/select_executor.cpp:353-362 | every tuple of a join step is an accepted pair of a running tuple and a tuple of the set |
| Join.ProductComplete | src/observer/sql/executor/select_executor.cpp:353-362 | every accepted pair of a running tuple and a tuple of the set appears in the join step |
| Join.RowNoBindings | src/observer/sql/executor/select_executor.cpp:354-361 | without bindings a row is the running tuple joined with every tuple of the set, in order |
| Join.ProductNoBindingsRows | src/observer/sql/executor/select_executor.cpp:353-362 | without bindings a join step has one full row per running tuple |
| Join.ProductNoBindingsLength | src/observer/sql/executor/select_executor.cpp:353-362 | without bindings a join step has one tuple per pair |
| Join.ProductNoBindingsSnoc | src/observer/sql/executor/select_executor.cpp:353-362 | without bindings, one more running tuple appends its full row |
| Join.ProductNoBindingsAt | src/observer/sql/executor/select_executor.cpp:353-362 | without bindings the join step is the cartesian product in left-major order |
| Join.ProductNoBindingsIndex | src/observer/sql/executor/select_executor.cpp:353-362 | without bindings, position `i * m + j` holds running tuple `i` joined with set tuple `j` |
| Join.JoinSpec | src/observer/sql/executor/select_executor.cpp:341-365 | the joined tuples are as wide as the joined schema, and the only failure is SCHEMA_FIELD_TYPE_MISMATCH |
| Join.Combos | src/observer/sql/executor/select_executor.cpp:341-365 | every combination of one tuple per set is as wide as the joined schema |
| Join.CombosCount | src/observer/sql/executor/select_executor.cpp:341-365 | there are as many combinations as the product of the set sizes |
| Join.JoinWithoutConditions | src/observer/sql/executor/select_executor.cpp:341-365 | without conditions the join is every combination |
| Join.JoinSound | src/observer/sql/executor/select_executor.cpp:341-365 | every joined tuple is one of the combinations |
| Join.SchemaOfTables | src/observer/sql/executor/select_executor.cpp:336-338 | sets read from tables have those tables' columns, in order, as their joined schema |
| Join.JoinKeepsError | src/observer/sql/executor/select_executor.cpp:348-351 | once a prefix of the sets fails to join, the whole join fails the same way |
| Join.FilterRow | src/observer/sql/executor/select_executor.cpp:354-361 | the inner loop builds the running tuple's row |
| Join.FilterProduct | src/observer/sql/executor/select_executor.cpp:353-362 | the outer loop builds every running tuple's row, left-major |
| Join.JoinTupleSets | src/observer/sql/executor/select_executor.cpp:341-365 | the join loop, with a new filter per set, yields the specified join or its error code |
| Join.AllTupleSetsFit | src/observer/sql/executor/select_executor.cpp:306-317 | scanned tuple sets have one value per column of their schema |
| Join.FilterTuples | src/observer/sql/executor/select_executor.cpp:326-370 | the joined tuples have one value per column of the joined schema, and a failure is never SUCCESS |
| Join.FilterTuplesSchema | src/observer/sql/executor/select_executor.cpp:336-338 | after a successful join every relation exists, and the joined schema is the relations' columns with the last relation first |
| Join.ScannedSchemas | src/observer/sql/executor/select_executor.cpp:306-317 | the scanned sets are the reversed relations' tables, each with its table's schema |
| Join.FilterTuplesWithoutConditions | src/observer/sql/executor/select_executor.cpp:326-370 | a query without conditions yields as many tuples as the product of its tables' scan sizes |
| Join.AppendSchemas | src/observer/sql/executor/select_executor.cpp:336-338 | the loop concatenates the sets' schemas in order |
| Join.SelectFilterTuples | src/observer/sql/executor/select_executor.cpp:326-370 | the method yields the specified joined schema and tuples, or the error code |
| Ordering.OrderKey | src/observer/sql/executor/select_executor.cpp:377-393 | an order item resolves to a column position within the joined schema and keeps its direction; every failure is SQL_SYNTAX |
| Ordering.OrderKeyColumn | src/observer/sql/executor/select_executor.cpp:382-392 | a resolved item sorts on the first column with its table (named, or the unique holder) and its field name |
| Ordering.OrderKeys | src/observer/sql/executor/select_executor.cpp:376-394 | resolving all items gives one in-range key per item, or SQL_SYNTAX |
| Ordering.OrderKeysAt | src/observer/sql/executor/select_executor.cpp:376-394 | a successful resolution keeps each item's key at its position |
| Ordering.OrderKeysAllResolve | src/observer/sql/executor/select_executor.cpp:376-394 | the resolution succeeds when every item resolves |
| Ordering.OrderKeysFail | src/observer/sql/executor/select_executor.cpp:379-392 | an item that fails makes the whole resolution fail |
| Ordering.ResolveOrder | src/observer/sql/executor/select_executor.cpp:377-393 | the loop body yields the item's key, or SQL_SYNTAX |
| Ordering.ResolveOrders | src/observer/sql/executor/select_executor.cpp:376-394 | the loop yields the resolved keys, or SQL_SYNTAX |
| Ordering.CompareTuples | src/observer/sql/executor/select_executor.cpp:396-406 | the comparator's loop with its early return computes the order the first differing key decides, reversed for descending keys |
| Ordering.LessLexicographic | src/observer/sql/executor/select_executor.cpp:396-406 | the comparator is lexicographic: `x` comes before `y` exactly when some key has different values, every earlier key has equal ones, and on it `x` has the smaller value, or the greater for a descending key |
| Ordering.LessAsymmetric | src/observer/sql/executor/select_executor.cpp:396-406 | of two tuples at most one comes first, given a total preorder on values |
| Ordering.NotLessTransitive | src/observer/sql/executor/select_executor.cpp:396-406 | "not after" is transitive, so the comparator is a strict weak order as `std::stable_sort` requires |
| Ordering.TiedSelf | src/observer/sql/executor/select_executor.cpp:396-406 | a tuple is tied with itself |
| Ordering.Insert | src/observer/sql/executor/select_executor.cpp:395-406 | inserting a tuple adds exactly one element |
| Ordering.InsertionSorted | src/observer/sql/executor/select_executor.cpp:395-406 | the stable sort keeps the number of tuples |
| Ordering.InsertPermutes | src/observer/sql/executor/select_executor.cpp:395-406 | inserting adds exactly the inserted tuple to the multiset |
| Ordering.SortPermutes | src/observer/sql/executor/select_executor.cpp:395-406 | the sort only rearranges: the same tuples, as often |
| Ordering.SortWidths | src/observer/sql/executor/select_executor.cpp:395-406 | tuples of one width sort into tuples of that width |
| Ordering.InsertSorted | src/observer/sql/executor/select_executor.cpp:395-406 | inserting into a sorted sequence keeps it sorted |
| Ordering.SortSorts | src/observer/sql/executor/select_executor.cpp:395-406 | the result is sorted: no tuple comes before an earlier one |
| Ordering.InsertStable | src/observer/sql/executor/select_executor.cpp:395-406 | insertion places the new tuple after the tuples it is tied with |
| Ordering.SortStable | src/observer/sql/executor/select_executor.cpp:395-406 | the sort is stable: tied tuples keep their input order |
| Ordering.TiedWithMembers | src/observer/sql/executor/select_executor.cpp:395-406 | the group tied with a tuple holds exactly the tuples of the sequence tied with it |
| Ordering.SortedUnique | src/observer/sql/executor/select_executor.cpp:395-406 | two sorted sequences with the same tied groups in the same order are equal |
| Ordering.StableSortUnique | src/observer/sql/executor/select_executor.cpp:395-406 | any sorted, stable rearrangement is the model's sort, so every stable sort, `std::stable_sort` included, gives this result |
| Ordering.ShiftGreater | src/observer/sql/executor/select_executor.cpp:395-406 | the inner loop moves the tuples that the new one comes before one place right, and returns where the insertion puts it |
| Ordering.InsertInPlace | src/observer/sql/executor/select_executor.cpp:395-406 | one step leaves the array prefix as the sorted prefix with the next tuple inserted, and the rest untouched |
| Ordering.StableSort | src/observer/sql/executor/select_executor.cpp:395-406 | the array ends up holding the stable sort of its old contents |
| Ordering.OrderTuples | src/observer/sql/executor/select_executor.cpp:372-408 | resolves the order items and then sorts the tuples stably in place; on SQL_SYNTAX the tuples are left as they were |
| Projection.ColumnTableKnown | src/observer/sql/executor/select_executor.cpp:207-215 | the table a plain column resolves to exists |
| Projection.ItemColumn | src/observer/sql/executor/select_executor.cpp:173-185 | a plain item stands for the field of that name in its resolved table, with the field's type |
| Projection.Visit | src/observer/sql/executor/select_executor.cpp:192-220 | a bare `*` is accepted only as the first item walked and then selects the whole joined schema; any other item only appends, and a plain column ends up present under its resolved table; the errors are SQL_SYNTAX, SCHEMA_TABLE_NOT_EXIST or SCHEMA_FIELD_MISSING |
| Projection.VisitAdds | src/observer/sql/executor/select_executor.cpp:200-220 | `t.*` appends exactly table `t`'s columns; a plain column goes on exactly when it resolves to a field of its table, and then adds only that column, unless already present |
| Projection.SelectFrom | src/observer/sql/executor/select_executor.cpp:191-223 | walking the select list fails only with SQL_SYNTAX, SCHEMA_TABLE_NOT_EXIST or SCHEMA_FIELD_MISSING; unless a bare `*` ends the walk, the result extends the schema it started from, holds every plain column walked under its resolved table and every column of each `t.*` table walked, and holds nothing else that was not in the starting schema |
| Projection.WalkStep | src/observer/sql/executor/select_executor.cpp:191-221 | walking one more item keeps the three facts: plain columns present, `t.*` tables covered, and every column either there before or added by a walked item |
| Projection.SelectSchema | src/observer/sql/executor/select_executor.cpp:189-223 | the result schema is the whole joined schema for a bare `*` written first; otherwise it holds every plain column of the list under its resolved table and every column of each `t.*` table, and nothing else; the errors are SQL_SYNTAX, SCHEMA_TABLE_NOT_EXIST and SCHEMA_FIELD_MISSING |
| Projection.StarSelectsAll | src/observer/sql/executor/select_executor.cpp:193-199 | a bare `*` as the last stored item selects the whole joined schema |
| Projection.MisplacedStarFails | src/observer/sql/executor/select_executor.cpp:194-197 | a bare `*` anywhere else makes the select list fail |
| Projection.GetSelectTupleSchema | src/observer/sql/executor/select_executor.cpp:189-223 | the loop from the last item to the first yields the result schema of the walk, or its error code |
| Projection.VisitItem | src/observer/sql/executor/select_executor.cpp:192-221 | one iteration of the loop extends the schema or ends the walk exactly as the walk's step for that item does |
| Projection.Positions | src/observer/sql/executor/select_executor.cpp:112-119 | each selected column's position is that of the first joined column with its table and field name, and -1 exactly when no joined column has them |
| Projection.Pick | src/observer/sql/executor/select_executor.cpp:127-129 | a projected tuple has one value per position |
| Projection.PickAll | src/observer/sql/executor/select_executor.cpp:427-431 | projection gives one result tuple per joined tuple |
| Projection.PickAllAppend | src/observer/sql/executor/select_executor.cpp:427-431 | projecting two lists one after the other is projecting their concatenation |
| Projection.PickAllPermutes | src/observer/sql/executor/select_executor.cpp:427-431 | projecting rearranged tuples gives the projected tuples rearranged |
| Projection.PickSelects | src/observer/sql/executor/select_executor.cpp:110-131 | a projected tuple holds, for each selected column, the joined tuple's value in the first column with that table and name |
| Projection.TupleProject.constructor | src/observer/sql/executor/select_executor.cpp:421 | a new projection holds no positions |
| Projection.TupleProject.Init | src/observer/sql/executor/select_executor.cpp:110-122 | succeeds exactly when every selected column is in the joined schema, appending their positions; otherwise SCHEMA_FIELD_MISSING, with the positions of the columns before the first missing one |
| Projection.TupleProject.Project | src/observer/sql/executor/select_executor.cpp:124-131 | the tuple's values at the stored positions, in order |
| Projection.ProjectSpec | src/observer/sql/executor/select_executor.cpp:410-434 | a projection has one result tuple per joined tuple, each as wide as the result schema, and a failure is never SUCCESS |
| Projection.Project | src/observer/sql/executor/select_executor.cpp:410-434 | the method yields the specified projection or its error code |
| Aggregation.NumericNameIffEmpty | src/observer/sql/executor/select_executor.cpp:436-443 | with the C library's `isdigit`, the test as written accepts exactly the empty name |
| Aggregation.NumericName | src/observer/sql/executor/select_executor.cpp:436-443 | the test as written accepts a name exactly when every character is a digit and is also '.' |
| Aggregation.FieldNameIsNumeric | src/observer/sql/executor/select_executor.cpp:436-443 | the loop computes the test as written, which accepts only the empty name when '.' is not a digit |
| Aggregation.NonNullCount | src/observer/sql/executor/select_executor.cpp:545-550 | no more non-NULL values than tuples |
| Aggregation.NumericColumn | src/observer/sql/executor/select_executor.cpp:544-562 | collecting a numeric column fails only with SQL_SYNTAX |
| Aggregation.StringColumn | src/observer/sql/executor/select_executor.cpp:588-604 | collecting a string column fails only with SQL_SYNTAX |
| Aggregation.NumericColumnFails | src/observer/sql/executor/select_executor.cpp:548-560 | a numeric column fails exactly when one of its values is a string |
| Aggregation.StringColumnFails | src/observer/sql/executor/select_executor.cpp:592-602 | a string column fails exactly when one of its values is a number |
| Aggregation.NumericColumnCount | src/observer/sql/executor/select_executor.cpp:544-562 | a usable numeric column has one number per non-NULL value |
| Aggregation.StringColumnCount | src/observer/sql/executor/select_executor.cpp:588-604 | a usable string column has one string per non-NULL value |
| Aggregation.NumericColumnValues | src/observer/sql/executor/select_executor.cpp:544-562 | the numbers collected are exactly the column's non-NULL values |
| Aggregation.StringColumnValues | src/observer/sql/executor/select_executor.cpp:588-604 | the strings collected are exactly the column's non-NULL values |
| Aggregation.TruncSumOfIntegers | src/observer/sql/executor/select_executor.cpp:571-573 | over whole numbers, accumulating into an `int` gives the exact sum |
| Aggregation.TruncSum | src/observer/sql/executor/select_executor.cpp:571-572 | over non-negative values, accumulating into an `int` gives a non-negative sum no greater than the exact sum |
| Aggregation.MaxOf | src/observer/sql/executor/select_executor.cpp:575 | the maximum is one of the values and no value exceeds it |
| Aggregation.MinOf | src/observer/sql/executor/select_executor.cpp:577 | the minimum is one of the values and no value is below it |
| Aggregation.NumericAggregate | src/observer/sql/executor/select_executor.cpp:564-582 | a numeric aggregate fails, with SQL_SYNTAX, exactly when there are values and the name is not `count`, `avg`, `max` or `min` |
| Aggregation.NumericColumnAggregate | src/observer/sql/executor/select_executor.cpp:541-583 | `aggregate_numeric` fails only with SQL_SYNTAX |
| Aggregation.DecimalString | src/observer/sql/executor/select_executor.cpp:607 | `std::to_string` of a count is a non-empty string of digits without a leading zero |
| Aggregation.DecimalStringRoundTrip | src/observer/sql/executor/select_executor.cpp:607 | reading back a count's decimal string gives the count |
| Aggregation.StrMax | src/observer/sql/executor/select_executor.cpp:610-612 | the greatest string is one of the strings |
| Aggregation.StrMin | src/observer/sql/executor/select_executor.cpp:613-615 | the least string is one of the strings |
| Aggregation.StrMaxIsGreatest | src/observer/sql/executor/select_executor.cpp:610-612 | no string is greater than the maximum under `strcmp` order |
| Aggregation.StrMinIsLeast | src/observer/sql/executor/select_executor.cpp:613-615 | no string is less than the minimum under `strcmp` order |
| Aggregation.StringAggregate | src/observer/sql/executor/select_executor.cpp:605-620 | a string aggregate fails, with SQL_SYNTAX, exactly when there are strings and the name is not `count`, `max` or `min` (so `avg` fails) |
| Aggregation.StringColumnAggregate | src/observer/sql/executor/select_executor.cpp:585-621 | `aggregate_string` fails only with SQL_SYNTAX |
| Aggregation.NumericCount | src/observer/sql/executor/select_executor.cpp:565-566 | `count` of a numeric column is its number of non-NULL values |
| Aggregation.StringCount | src/observer/sql/executor/select_executor.cpp:606-607 | `count` of a string column is its number of non-NULL values, in decimal |
| Aggregation.AllNullIsNull | src/observer/sql/executor/select_executor.cpp:564-569 | over a column of NULLs only, every aggregate other than `count` is the string "NULL", whatever its name |
| Aggregation.AllNullEmpty | src/observer/sql/executor/select_executor.cpp:548-550 | a column of NULLs only collects no value |
| Aggregation.NumericMax | src/observer/sql/executor/select_executor.cpp:574-575 | `max` of a numeric column is one of its values and no value exceeds it |
| Aggregation.NumericMin | src/observer/sql/executor/select_executor.cpp:576-577 | `min` of a numeric column is one of its values and no value is below it |
| Aggregation.StringMax | src/observer/sql/executor/select_executor.cpp:610-612 | `max` of a string column is one of its values and no value is greater |
| Aggregation.StringMin | src/observer/sql/executor/select_executor.cpp:613-615 | `min` of a string column is one of its values and no value is smaller |
| Aggregation.AvgOfIntegers | src/observer/sql/executor/select_executor.cpp:570-573 | `avg` of a column without FLOATS values is the exact mean of its non-NULL values |
| Aggregation.AggregateNumeric | src/observer/sql/executor/select_executor.cpp:541-583 | the method yields the numeric aggregate, or SQL_SYNTAX |
| Aggregation.NumericColumnPrefixFails | src/observer/sql/executor/select_executor.cpp:558-559 | a string value early in the column fails the whole column |
| Aggregation.StringColumnPrefixFails | src/observer/sql/executor/select_executor.cpp:600-601 | a numeric value early in the column fails the whole column |
| Aggregation.AggregateString | src/observer/sql/executor/select_executor.cpp:585-621 | the method yields the string aggregate, or SQL_SYNTAX |
| Aggregation.AggregateItem | src/observer/sql/executor/select_executor.cpp:469-534 | every failure of one aggregate item is SQL_SYNTAX |
| Aggregation.CountStar | src/observer/sql/executor/select_executor.cpp:477-496 | `count(*)` is the number of filtered tuples, and `*` with any other function is SQL_SYNTAX |
| Aggregation.AggregateFrom | src/observer/sql/executor/select_executor.cpp:469-535 | the first items give at most one column per item, with one value per column; a failure is SQL_SYNTAX |
| Aggregation.AggregateSpec | src/observer/sql/executor/select_executor.cpp:462-539 | an aggregate query yields exactly one tuple, as wide as its schema, or SQL_SYNTAX |
| Aggregation.AggregateFromFails | src/observer/sql/executor/select_executor.cpp:469-535 | any failing item fails the whole query |
| Aggregation.AggregateFromAll | src/observer/sql/executor/select_executor.cpp:469-535 | when every item contributes, the result has one column and one value per item, in item order |
| Aggregation.AggregateOne | src/observer/sql/executor/select_executor.cpp:470-534 | the loop body yields the item's column and value, nothing, or SQL_SYNTAX |
| Aggregation.Aggregate | src/observer/sql/executor/select_executor.cpp:462-539 | the method yields the specified aggregate row, or SQL_SYNTAX |
| Aggregation.AggregateNext | src/observer/sql/executor/select_executor.cpp:469-538 | one iteration of the loop extends the row as the specification's next item does, or returns SQL_SYNTAX, which is then the whole aggregation's result |
| Executor.Ordered | src/observer/sql/executor/select_executor.cpp:647-652 | ordering keeps the tuples' width and multiset, and fails only with SQL_SYNTAX |
| Executor.ExecuteSpec | src/observer/sql/executor/select_executor.cpp:623-664 | a failing query never returns SUCCESS |
| Executor.ProjectionRows | src/observer/sql/executor/select_executor.cpp:654-655 | a query without aggregates has one result row per joined tuple |
| Executor.AggregationRow | src/observer/sql/executor/select_executor.cpp:656-657 | a query with aggregates has exactly one result row, as wide as its schema |
| Executor.OrderOnlyRearranges | src/observer/sql/executor/select_executor.cpp:647-655 | ORDER BY only rearranges a projection: the same query without it has the same schema and the same rows, as often |
| Executor.JoinErrorStops | src/observer/sql/executor/select_executor.cpp:642-645 | a query whose scans or join fail returns that code |
| Executor.OrderStep | src/observer/sql/executor/select_executor.cpp:647-652 | sorting a copy of the tuples in an array yields the ordered tuples, or SQL_SYNTAX |
| Executor.Execute | src/observer/sql/executor/select_executor.cpp:623-664 | filter, order, then project or aggregate: the result set of the specification, or its error code |

## Left out

- Transactions, sessions and output. `end_trx_if_need` and `execute(SessionEvent *)` (select_executor.cpp:142-150, 666-679) print the result set and commit or roll back. They are not modelled.
- The storage scan. `SelectExeNode::execute` is the parameter `scan` (a function from a table name and its filter bindings to tuples). `ScanFits` assumes it yields tuples as wide as the table. The record layout, page access and the use of the filters during the scan are not modelled. A scan that fails (select_executor.cpp:308-313) and a failing `SelectExeNode::init` (select_executor.cpp:278-279) are not modelled: the model's scan and node set-up always succeed, so those two error paths are not passed on.
- CompositeConditionFilter.constructor: its initial state (no filters, not the memory owner) is declared in condition_filter.h, which is not part of this model; it is taken as the state the destructor and a zero-condition `init` leave alone.
- Byte decoding. Reading a payload from a record's bytes is the parameter `decode`, one reader per kind of payload. The reader is chosen by the bound type, so a value read from a column keeps that type as its tag. The NULL indicator byte and the offsets are modelled; the byte layout of each type is not.
- Floating point. Numbers are modelled as reals. This leaves out the conversion to `float` in `value_compare`, in the aggregates' `float` result and in `count`, and float rounding in general.
- Aggregation.AvgOfIntegers: the `int` accumulator of `avg` is modelled as truncating each partial sum toward zero, without its 32-bit overflow. The exact mean is proved only for columns of whole numbers.
- `field_name_is_numeric`: `isdigit` is the parameter `isDigit`. The test is modelled as written (`!isdigit(c) || c != '.'` rejects every character), so only the empty name is numeric. `atof("")` is 0.
- Value order: `TupleValue::compare` is not part of this model. It is the parameter `cmp`, required to be a total preorder where the sort's properties need it. `At` gives NULL outside a tuple only to be total: keys are always in range.
- `std::stable_sort` is modelled by an in-place insertion sort. `StableSortUnique` proves that every sorted, stable rearrangement is equal to it.
- Memory management. The allocation and deletion of filters and nodes on error paths, and `memory_owner_`'s deletion, are not modelled beyond the ownership flag.
- Panics. The `LOG_PANIC` fall-through of `judge_cmp_result` is excluded by a precondition: null tests always carry a NULL literal side, and column-vs-column conditions use comparison operators.
- Crashes on null names. `TupleFilter::init` builds `std::string`s from the relation names of both column sides, which crashes on an unqualified side. `QualifiedPair` requires both sides to name their table.
- Crashes in `schema_add_field`. The function dereferences an unchecked table lookup, so `SelectListReadable` requires explicitly named tables to exist. The aggregate loop reads `attributes[i]` for each aggregate, so `|aggregates| <= |attributes|` is required.
- Enum order. `parse.h` is not part of this model. The range checks of `DefaultConditionFilter::init` assume the declaration order `UNDEFINED, CHARS, INTS, FLOATS, NULLS, DATES` for types (`TypeOrdinal`), and that the two null tests come before `NO_OP` (`CompOpOrdinal`).
- tuple.cpp is not part of this model. `TupleSchema::from_table`, `append`, `add`, `add_if_not_exists` and `index_of_field` (first match) are modelled as their uses in the executor require.
- `count(col)` counts the column's non-NULL values, as the code does, not all tuples.
- "NULL" is returned for an empty column before the aggregate name is checked, as the code does, so an unknown function over an all-NULL column succeeds.
- Commented-out code (select_executor.cpp:627-638, 681-724) is not modelled.
