# data_algebra query-compiler core, modelled in Dafny

`data_algebra` builds data-processing pipelines as trees of operator nodes and
compiles them to SQL. This project models three parts of its core:

- **Operator-node bookkeeping** (`data_ops.dfy`, module `DataOps`). This covers:
  - the column checks every node passes;
  - the identity key of a table, built from its qualifiers and name;
  - the output column lists of `ExtendNode` and `NaturalJoinNode`, and every argument error they raise;
  - the `NaturalJoin` pipe step;
  - `get_tables`, the DAG-wide check that tables sharing a key have one column set;
  - table comparison and formatting;
  - `collect_representation`, which flattens a pipeline into an ordered list of step records.

  Nodes never change after construction, so they are a datatype. The constructors validate their arguments and build column lists with loops, so they are methods returning the node or the error. `collect_representation_implementation` threads one mutable list through its recursion and inserts at its front. That list is the class `RecordList`.
- **SQL fragments** (`near_sql.dfy`, module `NearSql`). These are the table, unary, binary, `UNION ALL` and wrapped-query fragments, with their `to_sql` and `summary`.
  - A step's `to_sql` merges the constants into the fragment's own terms before it renders. That update persists, so the step classes keep `terms` as a field and `ToSql` is a method proved against a rendering function of the terms before the call.
  - A table fragment's `to_sql` changes nothing, so it is a function.
  - The database dialect's `quote_identifier` is a function parameter.
- **Spark SQL identifier quoting** (`spark_sql.dfy`, module `SparkSql`). Names are lower-cased and wrapped in back-ticks, and a name holding a back-tick is refused. The dialect's identifier quote is the back-tick and its string quote is `"`.

Supporting modules:

- `wrappers.dfy`: `Option`, `Result`, and `Value`, a dynamically typed argument that is a string, `None` or anything else.
- `text.dfy`: the Python built-ins the core relies on:
  - `set(...)` of a list, and "no duplicates";
  - lexicographic `<` on `str`;
  - `list.sort()`;
  - `str.join`, `str.lower` and `in` on strings.
- `dicts.dfy`: an insertion-ordered `dict` and `dict.update`.

## Notes

- `NaturalJoinNode` stores `jointype` without checking it (`data_algebra/data_ops.py:357`), so any string is accepted.
- The `ValueError` raised by Spark quoting does not name the identifier (`data_algebra/SparkSQL.py:50`).
- `get_tables` raises when a DAG is inspected, not when a node is built. It runs at the start of `collect_representation`, `format_ops` and `to_sql` (`data_algebra/data_ops.py:51-62, 70, 79, 101`).

## Model

| member | source | states |
|---|---|---|
| Text.DistinctIffCardinality | data_algebra/data_ops.py:26-28 | the test `len(l) != len(set(l))` holds exactly when the list has a repeated name |
| Text.SortStrings | data_algebra/data_ops.py:151-152 | sorting distinct qualifier keys gives a strictly increasing list of the same keys |
| Text.SortedUnique | data_algebra/data_ops.py:151-152 | two strictly increasing lists of the same keys are equal, so the sorted order is unique |
| Text.StrLessTransitive | data_algebra/data_ops.py:198 | Python's string `<` is transitive |
| Text.StrLessTotal | data_algebra/data_ops.py:198 | of two different strings, one is less than the other |
| Text.Lower | data_algebra/SparkSQL.py:52 | `lower()` keeps the length and lower-cases each character on its own |
| Dicts.Update | data_algebra/near_sql.py:86 | `dict.update` keeps the old keys in place and appends the new keys in their order; the new values win |
| DataOps.CheckViewColumns | data_algebra/data_ops.py:19-28 | succeeds exactly when every name is a string, there is at least one and none repeats; the column set is then the set of the names; otherwise it returns the first failing check in source order |
| DataOps.BuildKeyPrefix | data_algebra/data_ops.py:149-156 | the key prefix is empty without qualifiers, else `{`, each `(k, v)` in sorted key order, then `}.` |
| DataOps.AppendQualifiers | data_algebra/data_ops.py:153-155 | the loop appends one `(k, v)` item per key, in the order given |
| DataOps.TableKeyWithoutQualifiers | data_algebra/data_ops.py:149-157 | with no qualifiers the key equals the table name |
| DataOps.TableKeyIgnoresInsertionOrder | data_algebra/data_ops.py:149-157 | two qualifier dictionaries with the same entries, inserted in any order, give the same key |
| DataOps.TableKeyExample | data_algebra/data_ops.py:149-157 | qualifiers inserted as b then a give the key `{(a, 1)(b, 2)}.t` |
| DataOps.NewTableDescription | data_algebra/data_ops.py:138-157 | the column checks come first, then a non-string name is refused and a `None` name fails on the key concatenation; on success the node holds the names, the qualifiers (empty when absent) and the key, and is well formed |
| DataOps.WfColumns | data_algebra/data_ops.py:234-260 | every constructed node has a non-empty, duplicate-free column list, so the column re-check at the end of each constructor cannot fail |
| DataOps.ConsumedColumns | data_algebra/data_ops.py:235-237 | the loop over the ops collects the union of the columns every op reads |
| DataOps.AppendNew | data_algebra/data_ops.py:241-244 | the append loop yields the source columns followed by the new names absent from them, in order |
| DataOps.AppendAbsentProperties | data_algebra/data_ops.py:241-244 | the source list is a prefix; the result has no duplicates; its set is the union; its length grows by the number of new names |
| DataOps.AppendAbsentKeepsPositions | data_algebra/data_ops.py:241-244 | a column already present keeps its position |
| DataOps.NewExtendNode | data_algebra/data_ops.py:212-260 | with `None` read as `[]` and a string `s` as `[s]`, succeeds exactly when there are ops, they read only source columns, `partition_by`, `order_by` and `reverse` have no repeats, the first two name only source columns and `reverse` is within `order_by`; errors come in source order; on success the columns are the source columns then the new op keys |
| DataOps.ExtendOrderByNewColumnRejected | data_algebra/data_ops.py:241-256 | `order_by` naming a column the same Extend introduces is rejected, since the known set is taken before the append |
| DataOps.ExtendColumns | data_algebra/data_ops.py:234-244 | the output is the source columns in order, then the op keys not among them in insertion order, with no duplicates |
| DataOps.NewNaturalJoinNode | data_algebra/data_ops.py:339-358 | a missing `by` fails as not iterable; otherwise succeeds exactly when `by` has no repeats and every name is on both sides; errors come in source order; the columns are `a`'s then `b`'s not in `a` |
| DataOps.NaturalJoinColumns | data_algebra/data_ops.py:339-358 | the output is `a`'s columns, then `b`'s columns absent from `a`, with no duplicates; it is the union of both sides and holds every join key |
| DataOps.NewNaturalJoin | data_algebra/data_ops.py:399-416 | the pipe step as written: it succeeds exactly when `b` is a view, `by` is given, `set(by)` of the raw argument lies in `b` and the normalised `by` is duplicate-free and within `b`; the step then keeps the normalised `by`, the join type and `b`; a failure is the first failing check in source order (not a view, not iterable, raw set outside `b`, duplicate, right side missing keys) |
| DataOps.NewNaturalJoinIntended | data_algebra/data_ops.py:399-416 | with `by` normalised first, it succeeds exactly when `b` is a view, `by` is given, has no repeats and lies within `b` |
| DataOps.JoinStepAgreesOnLists | data_algebra/data_ops.py:402-408 | for a list `by` the step as written and the intended step accept the same arguments |
| DataOps.JoinStepStringByRejected | data_algebra/data_ops.py:402-407 | a string `by` naming a column of `b` is rejected as written but accepted by the intended check |
| DataOps.LeavesAreTables | data_algebra/data_ops.py:45-49 | the collected leaves are all tables, at least one, and well formed when the DAG is |
| DataOps.GetTablesImplementation | data_algebra/data_ops.py:45-49 | the loop collects the tables of each source in turn, left to right |
| DataOps.IndexByKey | data_algebra/data_ops.py:55 | the key-to-table map holds every collected key and keeps, for each key, the last table that has it |
| DataOps.FindInconsistency | data_algebra/data_ops.py:56-61 | reports a key exactly when two collected tables share it but not their column set |
| DataOps.GetTables | data_algebra/data_ops.py:51-62 | fails exactly when two collected tables share a key but not a column set, naming such a key; otherwise returns the map from each key to its last table |
| DataOps.TableLessThan | data_algebra/data_ops.py:195-198 | a table is less than any non-table view, and a table is never less than a table with the same key |
| DataOps.TableEquals | data_algebra/data_ops.py:200-203 | a table never equals a non-table view, and equal tables are not ordered either way by `<` |
| DataOps.TableHash | data_algebra/data_ops.py:205-206 | every table equal to this one has the same hash |
| DataOps.FormatTable | data_algebra/data_ops.py:171-184 | the text starts with `Table(`, the key and `; `, and ends with `)` |
| DataOps.TableIdentityIsKey | data_algebra/data_ops.py:200-206 | table equality is key equality, it is symmetric, and equal tables hash alike |
| DataOps.TableLessThanIsStrictOrder | data_algebra/data_ops.py:195-198 | `<` among tables is irreflexive, transitive, asymmetric and total up to key equality |
| DataOps.TableAgainstOtherViews | data_algebra/data_ops.py:195-203 | against any non-table view, a table is less and not equal |
| DataOps.FormatTableTruncates | data_algebra/data_ops.py:171-184 | at most ten columns are shown; `, ...` is added exactly when there are more; columns after the tenth do not change the text |
| DataOps.RepresentationFollowsChain | data_algebra/data_ops.py:262-272 | one record per node of the `sources[0]` chain, base table first and the node itself last |
| DataOps.RecordList.constructor | data_algebra/data_ops.py:160-161 | a missing pipeline starts as an empty list |
| DataOps.RecordList.InsertFront | data_algebra/data_ops.py:168 | `insert(0, od)` puts the record before the existing ones |
| DataOps.CollectRepresentationImplementation | data_algebra/data_ops.py:360-369 | the given list (or a new one) ends as this DAG's records followed by its old contents; a join embeds its right side's own full list |
| DataOps.CollectRepresentation | data_algebra/data_ops.py:69-71 | fails, leaving the list untouched, exactly when the table-consistency check fails; otherwise returns the records as above |
| NearSql.TermStrs | data_algebra/near_sql.py:88-94 | one rendered item per requested column, in request order, or the error of the first column that fails |
| NearSql.TermStrsMissingColumn | data_algebra/near_sql.py:88-94 | when quoting accepts the names, rendering fails exactly when a requested column has no term, with a KeyError naming the first such column |
| NearSql.SelectTerms | data_algebra/near_sql.py:94-96 | the select list is never empty: with no requested column it is the single placeholder item |
| NearSql.WithPlaceholder | data_algebra/near_sql.py:95-96 | a non-empty list is kept; an empty one becomes the placeholder item |
| NearSql.MergeConstants | data_algebra/near_sql.py:84-86 | non-empty constants are added to the terms, with new names at the end and constant values winning; otherwise the terms are unchanged |
| NearSql.MergeConstantsIdempotent | data_algebra/near_sql.py:84-86 | merging the same constants a second time changes nothing |
| NearSql.NewConstantsSelectedFromSecondCall | data_algebra/near_sql.py:82-86 | with default columns a first call selects only the old terms; the merge persists, so a second call selects the first call's items followed by `v AS k` for each newly merged constant, and fails only if such a name cannot be quoted |
| NearSql.TermStrsConcat | data_algebra/near_sql.py:94 | rendering two column lists one after the other renders each in turn, and fails exactly when one of them fails |
| NearSql.QueryIsUnaryOverSubquery | data_algebra/near_sql.py:297-320 | the wrapped-query fragment renders as a unary step with no suffix over a non-table input |
| NearSql.UnionIsParenthesisedBinary | data_algebra/near_sql.py:244-278 | the union fragment renders as the binary step joined by `UNION ALL`, with its FROM clause in parentheses |
| NearSql.StepSummaryOf | data_algebra/near_sql.py:24-25 | the inherited summary is not flagged as a table and carries the quoted name |
| NearSql.NearSqlTable.constructor | data_algebra/near_sql.py:29-33 | the fragment keeps the given terms, names and no temp tables |
| NearSql.NearSqlTable.Summary | data_algebra/near_sql.py:53-54 | a table's summary is flagged as a table and carries its quoted name |
| NearSql.NearSqlTable.ToSql | data_algebra/near_sql.py:35-51 | any SQL rendered ends with the quoted table name |
| NearSql.TableSqlBareName | data_algebra/near_sql.py:36-51 | the SQL is the bare table name exactly when not forced with a non-empty column list and no constants are given |
| NearSql.TableSqlSelectList | data_algebra/near_sql.py:41-50 | otherwise it is `SELECT`, the non-empty item list, `FROM` and the table name, so the placeholder is never used |
| NearSql.TableItemsContent | data_algebra/near_sql.py:42-47 | the items are each quoted column then `v AS` each quoted constant, in order; rendering fails exactly when quoting one of them fails |
| NearSql.BareTermsQuoteEachColumn | data_algebra/near_sql.py:42 | each pass-through column renders as its quoted name alone |
| NearSql.ConstantTermsAlias | data_algebra/near_sql.py:44-47 | each constant renders as its value, `AS`, and its quoted name |
| NearSql.NearSqlUnaryStep.constructor | data_algebra/near_sql.py:58-79 | the fragment keeps its terms, names, input SQL, suffix, input summary and temp tables |
| NearSql.NearSqlUnaryStep.Summary | data_algebra/near_sql.py:24-25 | a step's summary is not flagged as a table and carries its quoted name |
| NearSql.NearSqlUnaryStep.ToSql | data_algebra/near_sql.py:81-110 | the terms take the constants in, and the SQL is the select list over the default columns of the old terms, then the bare table input or a parenthesised aliased sub-query, then the suffix when non-empty |
| NearSql.NearSqlBinaryStep.constructor | data_algebra/near_sql.py:114-144 | the fragment keeps its terms, names, both inputs with their summaries, the joiner, the suffix and the temp tables |
| NearSql.NearSqlBinaryStep.Summary | data_algebra/near_sql.py:24-25 | a step's summary is not flagged as a table and carries its quoted name |
| NearSql.NearSqlBinaryStep.ToSql | data_algebra/near_sql.py:146-197 | the terms take the constants in; each input renders by its table flag and is followed by its name; the joiner sits between them and the suffix comes last |
| NearSql.NearSqlUStep.constructor | data_algebra/near_sql.py:202-226 | the fragment keeps its terms, names, both inputs with their summaries and the temp tables |
| NearSql.NearSqlUStep.Summary | data_algebra/near_sql.py:24-25 | a step's summary is not flagged as a table and carries its quoted name |
| NearSql.NearSqlUStep.ToSql | data_algebra/near_sql.py:228-278 | the terms take the constants in, and the SQL selects from the parenthesised `UNION ALL` of both inputs |
| NearSql.NearSqlQ.constructor | data_algebra/near_sql.py:283-295 | the fragment keeps its names, query text, terms and temp tables |
| NearSql.NearSqlQ.Summary | data_algebra/near_sql.py:24-25 | a step's summary is not flagged as a table and carries its quoted name |
| NearSql.NearSqlQ.ToSql | data_algebra/near_sql.py:297-320 | the terms take the constants in, and the SQL selects from the parenthesised query followed by the previous step's name |
| SparkSql.QuoteIdentifier | data_algebra/SparkSQL.py:46-52 | a non-string gets a TypeError; a string with a back-tick gets a ValueError; every other string is accepted |
| SparkSql.QuotedShape | data_algebra/SparkSQL.py:52 | an accepted name becomes its lower-cased form between back-ticks, two characters longer, with exactly two back-ticks |
| SparkSql.LowerNoQuote | data_algebra/SparkSQL.py:49-52 | lower-casing neither adds nor removes a back-tick, so the check before lowering is the check on the result |
| SparkSql.LowerIdempotent | data_algebra/SparkSQL.py:52 | lower-casing twice is lower-casing once |
| SparkSql.QuoteIgnoresCase | data_algebra/SparkSQL.py:49-52 | quoting a name and quoting its lower-cased form give the same result |
| SparkSql.QuoteCollision | data_algebra/SparkSQL.py:52 | two accepted names quote alike exactly when their lower-cased forms are equal |
| SparkSql.QuotePlainLower | data_algebra/SparkSQL.py:52 | a name with no upper-case letter and no back-tick is quoted unchanged |
| SparkSql.PlaceholderIsPlain | data_algebra/near_sql.py:95-96 | the placeholder column name is such a name, so Spark quotes it unchanged |
| SparkSql.SparkSelectList | data_algebra/SparkSQL.py:46-52 | with Spark quoting, a select list of back-tick-free names renders exactly when every name has a term; a name holding a back-tick makes it fail |

## Left out

- `check_convert_op_dictionary` and expression internals live in a module that is not part of this model. An op is only the set of columns it reads.
- The `to_sql_implementation` delegations, the dialect model's `*_to_sql` methods and the linearisation of fragments into one statement live in modules that are not part of this model.
- `column_map` and the namespace side effects of `maybe_set_underbar` are not modelled. Neither are the `format_ops` output of Extend and join nodes, `__repr__` and `__str__`.
- The pipe steps' `apply` methods are not modelled; each is one call to a node constructor.
- `parse_by_lark.py`, the Spark connection class, `execute`, `read_query` and `insert_table` are not modelled. They are parsing, I/O and driver calls.
- Argument kinds are fixed by the types; this covers:
  - the "qualifiers must be a dictionary" check;
  - the `isinstance` assertions of the fragment constructors;
  - the "all sources must be views" check;
  - a `column_names` argument that is a string.
- Qualifier values are strings, so `str(v)` is the identity.
- Temp tables are a set of names, because the fragments never read their values.
- `DataOps.TableHash` takes the string hash as a parameter.
- `Text.Lower`: lower-cases only the ASCII letters A-Z. Python's `str.lower` also maps other Unicode letters.
- `NearSql.NearSqlTable.ToSql` has no state change and is a function. Its `force_sql` argument is read only in the table fragment; the steps ignore it, as the source does.
- Python's aliasing of the caller's terms dictionary is not modelled. The constructor copies it, so it cannot be observed; the model's terms are values.
- `SparkSql.PlaceholderIsPlain` states that Spark quotes the placeholder column unchanged through `QuotePlainLower`. It does not state the literal rendered text `1 AS` followed by the quoted name.

## Findings

| source | as written | input that shows it | evidently intended | confidence | as-written member | corrected member |
|---|---|---|---|---|---|---|
| data_algebra/data_ops.py:402-407 | the first by-column check takes `set(by)` before a string `by` is wrapped in a list, so it tests each character of the string as a column | `b` a table with the single column `ab`, `by="ab"`: the check sees columns `a` and `b`, not `ab`, and raises | normalise `by` first, so that a single column name is accepted as at lines 406-413 | not executed | DataOps.NewNaturalJoin (counterexample DataOps.JoinStepStringByRejected) | DataOps.NewNaturalJoinIntended |
