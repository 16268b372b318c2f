/** The operator nodes of a pipeline and their column bookkeeping
    (`data_algebra/data_ops.py`). A node never changes after it is built, so
    nodes are values; the constructors, which validate their arguments and
    build the output column list with loops, are methods returning either the
    node or the error the source raises. */
module DataOps {
  import opened Wrappers
  import opened Text
  import opened Dicts

  /** A column expression, abstracted to the set of columns it reads. */
  datatype Expr = Expr(columnsUsed: set<string>)

  /** An argument that may be `None`, a single name, or a list of names. */
  datatype Names = NoNames | OneName(name: string) | NameList(names: seq<string>)

  /** The normalisation the Extend constructor applies: `None` to `[]`, `s` to `[s]`. */
  function Normalize(n: Names): seq<string>
  {
    match n
    case NoNames => []
    case OneName(s) => [s]
    case NameList(l) => l
  }

  /** The exceptions the constructors and the consistency check raise. */
  datatype SchemaError =
    | NonStringColumnName
    | NoColumnNames
    | DuplicateColumnNames
    | TableNameNotString
    | TableNameIsNone            // `key + None` raises TypeError
    | NoOps
    | UnknownColumns(columns: set<string>)
    | DuplicatePartitionBy
    | DuplicateOrderBy
    | DuplicateReverse
    | UnknownPartitionBy(columns: set<string>)
    | UnknownOrderBy(columns: set<string>)
    | ReverseNotInOrderBy(columns: set<string>)
    | ByNotIterable              // `set(None)` raises TypeError
    | DuplicateBy
    | LeftMissingJoinKeys(columns: set<string>)
    | RightMissingJoinKeys(columns: set<string>)
    | BNotAView
    | ByNotInB
    | InconsistentTables(key: string)

  /** An operator node. `columnNames` is the node's output column list. */
  datatype View =
    | TableDescription(tableName: string, columnNames: seq<string>, qualifiers: Dict<string>, key: string)
    | ExtendNode(source: View, ops: Dict<Expr>, partitionBy: seq<string>, orderBy: seq<string>,
                 reverse: seq<string>, columnNames: seq<string>)
    | NaturalJoinNode(a: View, b: View, byColumns: seq<string>, jointype: string, columnNames: seq<string>)

  /** `column_set`. */
  function ColumnSet(v: View): set<string>
  {
    Elems(v.columnNames)
  }

  /** `sources`, left to right. */
  function Sources(v: View): seq<View>
  {
    match v
    case TableDescription(_, _, _, _) => []
    case ExtendNode(s, _, _, _, _, _) => [s]
    case NaturalJoinNode(a, b, _, _, _) => [a, b]
  }

  // ---------------------------------------------------------------------------
  // Column lists

  /** `cols` followed by the names of `more` that `cols` lacks, in the order of
      `more`: the output columns of Extend (source columns, then new op keys) and
      of NaturalJoin (`a`'s columns, then `b`'s columns not in `a`). */
  function AppendAbsent(cols: seq<string>, more: seq<string>): seq<string>
  {
    cols + Absent(more, Elems(cols))
  }

  lemma AppendAbsentProperties(cols: seq<string>, more: seq<string>)
    requires Distinct(cols) && Distinct(more)
    ensures |AppendAbsent(cols, more)| >= |cols|
    ensures AppendAbsent(cols, more)[..|cols|] == cols
    ensures Distinct(AppendAbsent(cols, more))
    ensures Elems(AppendAbsent(cols, more)) == Elems(cols) + Elems(more)
    ensures |AppendAbsent(cols, more)| == |cols| + |Elems(more) - Elems(cols)|
  {
    var extra := Absent(more, Elems(cols));
    AbsentElems(more, Elems(cols));
    DistinctConcat(cols, extra);
    assert Elems(cols + extra) == Elems(cols) + Elems(extra);
    DistinctIffCardinality(extra);
  }

  /** A requested column that was already in `cols` keeps its position. */
  lemma AppendAbsentKeepsPositions(cols: seq<string>, more: seq<string>, i: nat)
    requires i < |cols|
    ensures AppendAbsent(cols, more)[i] == cols[i]
  {
  }

  /** The source's test `len(a - b) > 0` is "`a` is not a subset of `b`". */
  lemma NonEmptyDifference(a: set<string>, b: set<string>)
    ensures |a - b| > 0 <==> !(a <= b)
  {
    if !(a <= b) {
      var x :| x in a && x !in b;
      assert x in a - b;
    }
  }

  // ---------------------------------------------------------------------------
  // ViewRepresentation.__init__: the column checks every node passes

  /** The column names of an argument list whose entries are all strings. */
  function StrsOf(cols: seq<Value>): (r: seq<string>)
    requires forall i :: 0 <= i < |cols| ==> cols[i].Str?
    ensures |r| == |cols| && forall i :: 0 <= i < |cols| ==> r[i] == cols[i].s
  {
    if |cols| == 0 then [] else [cols[0].s] + StrsOf(cols[1..])
  }

  /** The first of the column checks to fail, in the order the source makes them. */
  ghost function ColumnFailure(cols: seq<Value>): Option<SchemaError>
  {
    if exists i :: 0 <= i < |cols| && !cols[i].Str? then Some(NonStringColumnName)
    else if |cols| == 0 then Some(NoColumnNames)
    else if !Distinct(StrsOf(cols)) then Some(DuplicateColumnNames)
    else None
  }

  method CheckViewColumns(cols: seq<Value>) returns (r: Result<seq<string>, SchemaError>)
    ensures r.Ok? <==> ((forall i :: 0 <= i < |cols| ==> cols[i].Str?) && |cols| > 0 && Distinct(StrsOf(cols)))
    ensures r.Ok? ==> r.value == StrsOf(cols) && Elems(r.value) == set i | 0 <= i < |cols| :: cols[i].s
    ensures r.Err? ==> ColumnFailure(cols) == Some(r.error)
  {
    for i := 0 to |cols|
      invariant forall j :: 0 <= j < i ==> cols[j].Str?
    {
      if !cols[i].Str? {
        return Err(NonStringColumnName);
      }
    }
    if |cols| < 1 {
      return Err(NoColumnNames);
    }
    var names := StrsOf(cols);
    DistinctIffCardinality(names);
    if |names| != |Elems(names)| {
      return Err(DuplicateColumnNames);
    }
    assert Elems(names) == set i | 0 <= i < |cols| :: cols[i].s by {
      forall x | x in Elems(names) ensures x in set i | 0 <= i < |cols| :: cols[i].s {
        var k :| 0 <= k < |names| && names[k] == x;
      }
    }
    r := Ok(names);
  }

  // ---------------------------------------------------------------------------
  // TableDescription: the identity key

  /** `"(k, v)"`: one qualifier as written into the key. */
  function QualifierItem(k: string, v: string): string
  {
    "(" + k + ", " + v + ")"
  }

  /** The items of the keys `ks`, in the order of `ks`. */
  function QualifierText(vals: map<string, string>, ks: seq<string>): string
    requires Elems(ks) <= vals.Keys
  {
    if |ks| == 0 then ""
    else
      assert Elems(ks[..|ks| - 1]) <= Elems(ks);
      QualifierText(vals, ks[..|ks| - 1]) + QualifierItem(ks[|ks| - 1], vals[ks[|ks| - 1]])
  }

  lemma QualifierTextStep(vals: map<string, string>, ks: seq<string>, i: nat)
    requires Elems(ks) <= vals.Keys && i < |ks|
    ensures Elems(ks[..i]) <= vals.Keys && Elems(ks[..i + 1]) <= vals.Keys
    ensures QualifierText(vals, ks[..i + 1]) == QualifierText(vals, ks[..i]) + QualifierItem(ks[i], vals[ks[i]])
  {
    assert ks[..i + 1][..i] == ks[..i];
    assert Elems(ks[..i + 1]) <= Elems(ks);
  }

  /** The part of the key before the table name: empty without qualifiers,
      otherwise `"{"`, the qualifiers in sorted key order, then `"}."`. */
  function KeyPrefix(q: Dict<string>): string
    requires Valid(q)
  {
    if |q.keys| == 0 then ""
    else "{" + QualifierText(q.vals, SortStrings(q.keys)) + "}."
  }

  function TableKey(tableName: string, q: Dict<string>): string
    requires Valid(q)
  {
    KeyPrefix(q) + tableName
  }

  /** The loop of `TableDescription.__init__` that writes the key prefix. */
  method BuildKeyPrefix(q: Dict<string>) returns (key: string)
    requires Valid(q)
    ensures key == KeyPrefix(q)
  {
    key := "";
    if |q.keys| > 0 {
      var keys := SortStrings(q.keys);
      key := AppendQualifiers("{", q.vals, keys);
      key := key + "}.";
    }
  }

  /** `for k in keys: key = key + "(" + k + ", " + str(qualifiers[k]) + ")"`. */
  method AppendQualifiers(start: string, vals: map<string, string>, ks: seq<string>) returns (key: string)
    requires Elems(ks) <= vals.Keys
    ensures key == start + QualifierText(vals, ks)
  {
    key := start;
    for i := 0 to |ks|
      invariant Elems(ks[..i]) <= vals.Keys
      invariant key == start + QualifierText(vals, ks[..i])
    {
      QualifierTextStep(vals, ks, i);
      key := key + QualifierItem(ks[i], vals[ks[i]]);
    }
    assert ks[..|ks|] == ks;
  }

  /** Without qualifiers the key is the table name itself. */
  lemma TableKeyWithoutQualifiers(tableName: string, q: Dict<string>)
    requires Valid(q) && q.vals == map[]
    ensures TableKey(tableName, q) == tableName
  {
    DistinctIffCardinality(q.keys);
  }

  /** The key depends on the qualifiers' entries, not on the order they were inserted in. */
  lemma TableKeyIgnoresInsertionOrder(tableName: string, q1: Dict<string>, q2: Dict<string>)
    requires Valid(q1) && Valid(q2) && q1.vals == q2.vals
    ensures TableKey(tableName, q1) == TableKey(tableName, q2)
  {
    DistinctIffCardinality(q1.keys);
    DistinctIffCardinality(q2.keys);
    if |q1.keys| > 0 {
      SortedUnique(SortStrings(q1.keys), SortStrings(q2.keys));
    }
  }

  /** The qualifiers are written in sorted key order, whatever their insertion order. */
  lemma TableKeyExample()
    ensures TableKey("t", Dict(["b", "a"], map["b" := "2", "a" := "1"])) == "{(a, 1)(b, 2)}.t"
  {
    assert Valid(Dict(["b", "a"], map["b" := "2", "a" := "1"]));
    SortTwoKeys();
    TwoQualifiersText();
  }

  lemma SortTwoKeys()
    ensures SortStrings(["b", "a"]) == ["a", "b"]
  {
    var sorted: seq<string> := ["a", "b"];
    var ks: seq<string> := ["b", "a"];
    assert StrLess("a", "b");
    assert Elems(sorted) == Elems(ks) by {
      assert sorted[0] == ks[1] && sorted[1] == ks[0];
    }
    SortedUnique(SortStrings(ks), sorted);
  }

  lemma TwoQualifiersText()
    ensures QualifierText(map["b" := "2", "a" := "1"], ["a", "b"]) == "(a, 1)(b, 2)"
  {
    var sorted: seq<string> := ["a", "b"];
    assert sorted[..1] == ["a"] && sorted[..1][..0] == [];
  }

  // ---------------------------------------------------------------------------
  // Well-formed nodes: what a successful constructor guarantees

  /** The union of the columns read by the ops named in `ks` (`consumed_cols`). */
  function UsedColumns(ops: map<string, Expr>, ks: seq<string>): set<string>
    requires Elems(ks) <= ops.Keys
  {
    if |ks| == 0 then {}
    else
      assert Elems(ks[..|ks| - 1]) <= Elems(ks);
      UsedColumns(ops, ks[..|ks| - 1]) + ops[ks[|ks| - 1]].columnsUsed
  }

  /** Every check of `ExtendNode.__init__` passes (with the arguments normalised). */
  ghost predicate ExtendAccepts(source: View, ops: Dict<Expr>, partitionBy: seq<string>,
                                orderBy: seq<string>, reverse: seq<string>)
    requires Valid(ops)
  {
    && |ops.keys| > 0
    && UsedColumns(ops.vals, ops.keys) <= ColumnSet(source)
    && Distinct(partitionBy) && Distinct(orderBy) && Distinct(reverse)
    && Elems(partitionBy) <= ColumnSet(source)
    && Elems(orderBy) <= ColumnSet(source)
    && Elems(reverse) <= Elems(orderBy)
  }

  /** Every check of `NaturalJoinNode.__init__` passes (with `by` normalised). */
  ghost predicate JoinAccepts(a: View, b: View, byColumns: seq<string>)
  {
    Distinct(byColumns) && Elems(byColumns) <= ColumnSet(a) && Elems(byColumns) <= ColumnSet(b)
  }

  ghost predicate Wf(v: View)
  {
    match v
    case TableDescription(name, cols, q, key) =>
      |cols| > 0 && Distinct(cols) && Valid(q) && key == TableKey(name, q)
    case ExtendNode(s, ops, pb, ob, rev, cols) =>
      Wf(s) && Valid(ops) && ExtendAccepts(s, ops, pb, ob, rev) && cols == AppendAbsent(s.columnNames, ops.keys)
    case NaturalJoinNode(a, b, byColumns, _, cols) =>
      Wf(a) && Wf(b) && JoinAccepts(a, b, byColumns) && cols == AppendAbsent(a.columnNames, b.columnNames)
  }

  /** Every node's column list is non-empty and duplicate-free, so the
      re-validation `ViewRepresentation.__init__` makes of an Extend or a join
      output never fails. */
  lemma {:induction false} WfColumns(v: View)
    requires Wf(v)
    ensures |v.columnNames| > 0 && Distinct(v.columnNames)
  {
    match v
    case TableDescription(_, _, _, _) =>
    case ExtendNode(s, ops, _, _, _, _) =>
      WfColumns(s);
      AppendAbsentProperties(s.columnNames, ops.keys);
    case NaturalJoinNode(a, b, _, _, _) =>
      WfColumns(a);
      WfColumns(b);
      AppendAbsentProperties(a.columnNames, b.columnNames);
  }

  // ---------------------------------------------------------------------------
  // Constructors

  method NewTableDescription(tableName: Value, columnNames: seq<Value>, qualifiers: Option<Dict<string>>)
    returns (r: Result<View, SchemaError>)
    requires qualifiers.Some? ==> Valid(qualifiers.value)
    ensures r.Ok? <==> ColumnFailure(columnNames) == None && tableName.Str?
    ensures r.Ok? ==>
      var q := if qualifiers.Some? then qualifiers.value else Empty();
      && r.value == TableDescription(tableName.s, StrsOf(columnNames), q, TableKey(tableName.s, q))
      && Wf(r.value)
    ensures ColumnFailure(columnNames).Some? ==> r == Err(ColumnFailure(columnNames).value)
    ensures ColumnFailure(columnNames) == None && tableName.NonString? ==> r == Err(TableNameNotString)
    ensures ColumnFailure(columnNames) == None && tableName.NoneValue? ==> r == Err(TableNameIsNone)
  {
    var names := CheckViewColumns(columnNames);
    if names.Err? {
      return Err(names.error);
    }
    if tableName.NonString? {
      return Err(TableNameNotString);
    }
    var q := if qualifiers.Some? then qualifiers.value else Empty();
    var prefix := BuildKeyPrefix(q);
    if tableName.NoneValue? {
      return Err(TableNameIsNone);
    }
    DistinctIffCardinality(names.value);
    r := Ok(TableDescription(tableName.s, names.value, q, prefix + tableName.s));
  }

  /** The first Extend check to fail, in the order the source makes them. */
  ghost function ExtendFailure(source: View, ops: Dict<Expr>, partitionBy: seq<string>,
                               orderBy: seq<string>, reverse: seq<string>): Option<SchemaError>
    requires Valid(ops)
  {
    var known := ColumnSet(source);
    var used := UsedColumns(ops.vals, ops.keys);
    if |ops.keys| == 0 then Some(NoOps)
    else if !(used <= known) then Some(UnknownColumns(used - known))
    else if !Distinct(partitionBy) then Some(DuplicatePartitionBy)
    else if !Distinct(orderBy) then Some(DuplicateOrderBy)
    else if !Distinct(reverse) then Some(DuplicateReverse)
    else if !(Elems(partitionBy) <= known) then Some(UnknownPartitionBy(Elems(partitionBy) - known))
    else if !(Elems(orderBy) <= known) then Some(UnknownOrderBy(Elems(orderBy) - known))
    else if !(Elems(reverse) <= Elems(orderBy)) then Some(ReverseNotInOrderBy(Elems(reverse) - Elems(orderBy)))
    else None
  }

  method NewExtendNode(source: View, ops: Dict<Expr>, partitionBy: Names, orderBy: Names, reverse: Names)
    returns (r: Result<View, SchemaError>)
    requires Wf(source) && Valid(ops)
    ensures r.Ok? <==> ExtendAccepts(source, ops, Normalize(partitionBy), Normalize(orderBy), Normalize(reverse))
    ensures r.Ok? ==>
      && r.value == ExtendNode(source, ops, Normalize(partitionBy), Normalize(orderBy), Normalize(reverse),
                               AppendAbsent(source.columnNames, ops.keys))
      && Wf(r.value)
    ensures r.Err? ==>
      ExtendFailure(source, ops, Normalize(partitionBy), Normalize(orderBy), Normalize(reverse)) == Some(r.error)
  {
    if |ops.keys| < 1 {
      return Err(NoOps);
    }
    var pb, ob, rev := Normalize(partitionBy), Normalize(orderBy), Normalize(reverse);
    var consumed := ConsumedColumns(ops);
    var unknownCols := consumed - ColumnSet(source);
    NonEmptyDifference(consumed, ColumnSet(source));
    if |unknownCols| > 0 {
      return Err(UnknownColumns(unknownCols));
    }
    var knownCols := Elems(source.columnNames);
    var columnNames := AppendNew(source.columnNames, ops.keys);
    DistinctIffCardinality(pb);
    DistinctIffCardinality(ob);
    DistinctIffCardinality(rev);
    if |pb| != |Elems(pb)| {
      return Err(DuplicatePartitionBy);
    }
    if |ob| != |Elems(ob)| {
      return Err(DuplicateOrderBy);
    }
    if |rev| != |Elems(rev)| {
      return Err(DuplicateReverse);
    }
    var unknown := Elems(pb) - knownCols;
    NonEmptyDifference(Elems(pb), knownCols);
    if |unknown| > 0 {
      return Err(UnknownPartitionBy(unknown));
    }
    unknown := Elems(ob) - knownCols;
    NonEmptyDifference(Elems(ob), knownCols);
    if |unknown| > 0 {
      return Err(UnknownOrderBy(unknown));
    }
    unknown := Elems(rev) - Elems(ob);
    NonEmptyDifference(Elems(rev), Elems(ob));
    if |unknown| > 0 {
      return Err(ReverseNotInOrderBy(unknown));
    }
    r := Ok(ExtendNode(source, ops, pb, ob, rev, columnNames));
  }

  /** The loop over `ops.items()` collecting `consumed_cols`. */
  method ConsumedColumns(ops: Dict<Expr>) returns (consumed: set<string>)
    requires Valid(ops)
    ensures consumed == UsedColumns(ops.vals, ops.keys)
  {
    consumed := {};
    for i := 0 to |ops.keys|
      invariant Elems(ops.keys[..i]) <= ops.vals.Keys
      invariant consumed == UsedColumns(ops.vals, ops.keys[..i])
    {
      assert ops.keys[..i + 1][..i] == ops.keys[..i];
      assert Elems(ops.keys[..i + 1]) <= Elems(ops.keys);
      consumed := consumed + ops.vals[ops.keys[i]].columnsUsed;
    }
    assert ops.keys[..|ops.keys|] == ops.keys;
  }

  /** The loop `for c in more: if c not in set(cols): cols.append(c)` of the
      Extend and join constructors. */
  method AppendNew(cols: seq<string>, more: seq<string>) returns (r: seq<string>)
    ensures r == AppendAbsent(cols, more)
  {
    var known := Elems(cols);
    r := cols;
    for i := 0 to |more|
      invariant r == cols + Absent(more[..i], known)
    {
      assert more[..i + 1][..i] == more[..i];
      if more[i] !in known {
        r := r + [more[i]];
      }
    }
    assert more[..|more|] == more;
  }

  /** Because `known_cols` is taken before the new columns are appended,
      `partition_by` and `order_by` may name only source columns: naming a
      column the same Extend introduces is rejected. */
  lemma ExtendOrderByNewColumnRejected(source: View, ops: Dict<Expr>, orderBy: seq<string>, c: string)
    requires Wf(source) && Valid(ops)
    requires c in ops.keys && c !in ColumnSet(source) && c in orderBy
    ensures !ExtendAccepts(source, ops, [], orderBy, [])
  {
  }

  /** The first NaturalJoinNode check to fail, in the order the source makes them. */
  ghost function JoinFailure(a: View, b: View, byColumns: Names): Option<SchemaError>
  {
    var names := Normalize(byColumns);
    if byColumns.NoNames? then Some(ByNotIterable)
    else if !Distinct(names) then Some(DuplicateBy)
    else if !(Elems(names) <= ColumnSet(a)) then Some(LeftMissingJoinKeys(Elems(names) - ColumnSet(a)))
    else if !(Elems(names) <= ColumnSet(b)) then Some(RightMissingJoinKeys(Elems(names) - ColumnSet(b)))
    else None
  }

  method NewNaturalJoinNode(a: View, b: View, byColumns: Names, jointype: string) returns (r: Result<View, SchemaError>)
    requires Wf(a) && Wf(b)
    ensures r.Ok? <==> !byColumns.NoNames? && JoinAccepts(a, b, Normalize(byColumns))
    ensures r.Ok? ==>
      && r.value == NaturalJoinNode(a, b, Normalize(byColumns), jointype, AppendAbsent(a.columnNames, b.columnNames))
      && Wf(r.value)
    ensures r.Err? ==> JoinFailure(a, b, byColumns) == Some(r.error)
  {
    var columnNames := AppendNew(a.columnNames, b.columnNames);
    if byColumns.NoNames? {
      return Err(ByNotIterable);
    }
    var names := Normalize(byColumns);
    var bySet := Elems(names);
    DistinctIffCardinality(names);
    if |names| != |bySet| {
      return Err(DuplicateBy);
    }
    var missingLeft := bySet - ColumnSet(a);
    NonEmptyDifference(bySet, ColumnSet(a));
    if |missingLeft| > 0 {
      return Err(LeftMissingJoinKeys(missingLeft));
    }
    var missingRight := bySet - ColumnSet(b);
    NonEmptyDifference(bySet, ColumnSet(b));
    if |missingRight| > 0 {
      return Err(RightMissingJoinKeys(missingRight));
    }
    r := Ok(NaturalJoinNode(a, b, names, jointype, columnNames));
  }

  /** A join's output is `a`'s columns, then `b`'s columns not in `a`, each side
      in its own order; it has no duplicate and contains every join key. */
  lemma {:induction false} NaturalJoinColumns(v: View)
    requires v.NaturalJoinNode? && Wf(v)
    ensures v.columnNames[..|v.a.columnNames|] == v.a.columnNames
    ensures v.columnNames[|v.a.columnNames|..] == Absent(v.b.columnNames, ColumnSet(v.a))
    ensures ColumnSet(v) == ColumnSet(v.a) + ColumnSet(v.b)
    ensures Distinct(v.columnNames)
    ensures Elems(v.byColumns) <= ColumnSet(v)
  {
    WfColumns(v.a);
    WfColumns(v.b);
    AppendAbsentProperties(v.a.columnNames, v.b.columnNames);
  }

  /** Extend keeps the source columns as a prefix, in order (an overwritten
      column keeps its slot), appends the new op keys in insertion order, and
      produces no duplicate. */
  lemma {:induction false} ExtendColumns(v: View)
    requires v.ExtendNode? && Wf(v)
    ensures v.columnNames[..|v.source.columnNames|] == v.source.columnNames
    ensures v.columnNames[|v.source.columnNames|..] == Absent(v.ops.keys, ColumnSet(v.source))
    ensures ColumnSet(v) == ColumnSet(v.source) + Elems(v.ops.keys)
    ensures Distinct(v.columnNames)
  {
    WfColumns(v.source);
    AppendAbsentProperties(v.source.columnNames, v.ops.keys);
  }

  // ---------------------------------------------------------------------------
  // The NaturalJoin pipe step

  /** The arguments a `NaturalJoin` pipe step keeps for a later join. */
  datatype NaturalJoinStep = NaturalJoinStep(byColumns: seq<string>, jointype: string, b: View)

  /** Python's `set(by)` applied to the raw argument: `None` is not iterable and
      a string is a sequence of one-character strings. */
  function RawSet(byColumns: Names): Option<set<string>>
  {
    match byColumns
    case NoNames => None
    case OneName(s) => Some(set i | 0 <= i < |s| :: [s[i]])
    case NameList(l) => Some(Elems(l))
  }

  /** The first `NaturalJoin.__init__` check to fail, in the order the source makes them. */
  ghost function StepFailure(b: Option<View>, byColumns: Names): Option<SchemaError>
  {
    var names := Normalize(byColumns);
    if b.None? then Some(BNotAView)
    else if byColumns.NoNames? then Some(ByNotIterable)
    else if !(RawSet(byColumns).value <= ColumnSet(b.value)) then Some(ByNotInB)
    else if !Distinct(names) then Some(DuplicateBy)
    else if !(Elems(names) <= ColumnSet(b.value)) then Some(RightMissingJoinKeys(Elems(names) - ColumnSet(b.value)))
    else None
  }

  /** `NaturalJoin.__init__` as written: the first membership test takes `set(by)`
      before a string `by` is wrapped in a list. */
  function NewNaturalJoin(b: Option<View>, byColumns: Names, jointype: string): (r: Result<NaturalJoinStep, SchemaError>)
    ensures r.Ok? ==> Distinct(r.value.byColumns) && Elems(r.value.byColumns) <= ColumnSet(r.value.b)
    ensures r.Ok? <==>
      && b.Some? && !byColumns.NoNames?
      && RawSet(byColumns).value <= ColumnSet(b.value)
      && Distinct(Normalize(byColumns)) && Elems(Normalize(byColumns)) <= ColumnSet(b.value)
    ensures r.Ok? ==> r.value == NaturalJoinStep(Normalize(byColumns), jointype, b.value)
    ensures r.Err? ==> StepFailure(b, byColumns) == Some(r.error)
  {
    if b.None? then Err(BNotAView)
    else if byColumns.NoNames? then Err(ByNotIterable)
    else if
      NonEmptyDifference(RawSet(byColumns).value, ColumnSet(b.value));
      |RawSet(byColumns).value - ColumnSet(b.value)| > 0 then Err(ByNotInB)
    else
      var names := Normalize(byColumns);
      DistinctIffCardinality(names);
      NonEmptyDifference(Elems(names), ColumnSet(b.value));
      if |names| != |Elems(names)| then Err(DuplicateBy)
      else if |Elems(names) - ColumnSet(b.value)| > 0 then Err(RightMissingJoinKeys(Elems(names) - ColumnSet(b.value)))
      else Ok(NaturalJoinStep(names, jointype, b.value))
  }

  /** `NaturalJoin.__init__` with `by` normalised before any use, as the
      normalisation at lines 406-407 intends. */
  function NewNaturalJoinIntended(b: Option<View>, byColumns: Names, jointype: string): (r: Result<NaturalJoinStep, SchemaError>)
    ensures r.Ok? <==>
      b.Some? && !byColumns.NoNames? && Distinct(Normalize(byColumns)) && Elems(Normalize(byColumns)) <= ColumnSet(b.value)
    ensures r.Ok? ==> r.value == NaturalJoinStep(Normalize(byColumns), jointype, b.value)
  {
    if b.None? then Err(BNotAView)
    else if byColumns.NoNames? then Err(ByNotIterable)
    else
      var names := Normalize(byColumns);
      DistinctIffCardinality(names);
      NonEmptyDifference(Elems(names), ColumnSet(b.value));
      if |Elems(names) - ColumnSet(b.value)| > 0 then Err(ByNotInB)
      else if |names| != |Elems(names)| then Err(DuplicateBy)
      else Ok(NaturalJoinStep(names, jointype, b.value))
  }

  /** A list `by` is checked the same way by both; only a single string differs. */
  lemma JoinStepAgreesOnLists(b: Option<View>, l: seq<string>, jointype: string)
    ensures NewNaturalJoin(b, NameList(l), jointype).Ok? <==> NewNaturalJoinIntended(b, NameList(l), jointype).Ok?
  {
  }

  /** A multi-character string `by` naming a column of `b` is rejected as written
      (its characters are not columns) although the intended check accepts it. */
  lemma JoinStepStringByRejected()
    ensures var b := TableDescription("d", ["ab"], Empty(), "d");
      && NewNaturalJoin(Some(b), OneName("ab"), "INNER") == Err(ByNotInB)
      && NewNaturalJoinIntended(Some(b), OneName("ab"), "INNER").Ok?
  {
    var b := TableDescription("d", ["ab"], Empty(), "d");
    assert "a" in RawSet(OneName("ab")).value by {
      assert "ab"[0] == 'a';
      assert ["ab"[0]] == "a";
    }
    assert "a" !in ColumnSet(b);
    assert Elems(["ab"]) == {"ab"};
  }

  // ---------------------------------------------------------------------------
  // get_tables

  /** The leaf tables of a DAG, collected from the sources left to right. */
  function Leaves(v: View): seq<View>
  {
    match v
    case TableDescription(_, _, _, _) => [v]
    case ExtendNode(s, _, _, _, _, _) => Leaves(s)
    case NaturalJoinNode(a, b, _, _, _) => Leaves(a) + Leaves(b)
  }

  function LeavesOfAll(vs: seq<View>): seq<View>
  {
    if |vs| == 0 then [] else LeavesOfAll(vs[..|vs| - 1]) + Leaves(vs[|vs| - 1])
  }

  ghost predicate AllTables(ts: seq<View>)
  {
    forall i :: 0 <= i < |ts| ==> ts[i].TableDescription?
  }

  /** Every leaf is a table node, there is at least one, and a well-formed DAG has well-formed leaves. */
  lemma {:induction false} LeavesAreTables(v: View)
    ensures |Leaves(v)| > 0 && AllTables(Leaves(v))
    ensures Wf(v) ==> forall i :: 0 <= i < |Leaves(v)| ==> Wf(Leaves(v)[i])
  {
    match v
    case TableDescription(_, _, _, _) =>
    case ExtendNode(s, _, _, _, _, _) =>
      LeavesAreTables(s);
    case NaturalJoinNode(a, b, _, _, _) =>
      LeavesAreTables(a);
      LeavesAreTables(b);
      var la, lb := Leaves(a), Leaves(b);
      assert forall i :: |la| <= i < |la + lb| ==> (la + lb)[i] == lb[i - |la|];
  }

  /** `get_tables_implementation`: concatenates the tables of each source in turn. */
  method GetTablesImplementation(v: View) returns (tables: seq<View>)
    ensures tables == Leaves(v)
    decreases v
  {
    if v.TableDescription? {
      return [v];
    }
    var sources := Sources(v);
    tables := [];
    for i := 0 to |sources|
      invariant tables == LeavesOfAll(sources[..i])
    {
      assert sources[..i + 1][..i] == sources[..i];
      if v.ExtendNode? {
        assert sources[i] == v.source;
      } else {
        assert sources[i] == v.a || sources[i] == v.b;
      }
      var more := GetTablesImplementation(sources[i]);
      tables := tables + more;
    }
    assert sources[..|sources|] == sources;
    if v.ExtendNode? {
      assert LeavesOfAll(sources) == LeavesOfAll([]) + Leaves(v.source);
    } else {
      assert sources[..1] == [v.a];
      assert LeavesOfAll(sources) == LeavesOfAll([v.a]) + Leaves(v.b);
    }
  }

  /** Two collected tables share a key but not a column set. */
  ghost predicate Conflicting(ts: seq<View>)
    requires AllTables(ts)
  {
    exists i, j :: 0 <= i < |ts| && 0 <= j < |ts| && ts[i].key == ts[j].key && ColumnSet(ts[i]) != ColumnSet(ts[j])
  }

  /** `ts[i]` is the last table of `ts` with key `k`: the one a dict comprehension keeps. */
  ghost predicate LastWithKey(ts: seq<View>, i: int, k: string)
    requires AllTables(ts)
  {
    0 <= i < |ts| && ts[i].key == k && forall j :: i < j < |ts| ==> ts[j].key != k
  }

  /** `get_tables`: the map from key to table, or an error exactly when two
      tables sharing a key have different column sets. */
  method GetTables(v: View) returns (r: Result<Dict<View>, SchemaError>)
    ensures AllTables(Leaves(v))
    ensures r.Err? <==> Conflicting(Leaves(v))
    ensures r.Err? ==> r.error.InconsistentTables? && ConflictAt(Leaves(v), r.error.key)
    ensures r.Ok? ==> Valid(r.value)
    ensures r.Ok? ==> r.value.vals.Keys == set i | 0 <= i < |Leaves(v)| :: Leaves(v)[i].key
    ensures r.Ok? ==> forall k :: k in r.value.vals ==>
      exists i :: LastWithKey(Leaves(v), i, k) && r.value.vals[k] == Leaves(v)[i]
  {
    var tables := GetTablesImplementation(v);
    LeavesAreTables(v);
    var examples := IndexByKey(tables);
    var bad := FindInconsistency(tables, examples);
    if bad.Some? {
      return Err(InconsistentTables(bad.value));
    }
    r := Ok(examples);
  }

  /** Two tables sharing the key `k` have different column sets. */
  ghost predicate ConflictAt(ts: seq<View>, k: string)
    requires AllTables(ts)
  {
    exists i, j :: 0 <= i < |ts| && 0 <= j < |ts| && ts[i].key == k == ts[j].key && ColumnSet(ts[i]) != ColumnSet(ts[j])
  }

  /** A table whose column set differs from the one kept for its key conflicts with it. */
  lemma MismatchConflicts(tables: seq<View>, examples: Dict<View>, i: int)
    requires AllTables(tables) && 0 <= i < |tables|
    requires tables[i].key in examples.vals
    requires forall k :: k in examples.vals ==> exists i :: LastWithKey(tables, i, k) && examples.vals[k] == tables[i]
    requires ColumnSet(examples.vals[tables[i].key]) != ColumnSet(tables[i])
    ensures ConflictAt(tables, tables[i].key)
  {
    var k := tables[i].key;
    var w :| LastWithKey(tables, w, k) && examples.vals[k] == tables[w];
    assert 0 <= w < |tables| && tables[w].key == k == tables[i].key && ColumnSet(tables[w]) != ColumnSet(tables[i]);
  }

  /** When every table agrees with the one kept for its key, no two tables conflict. */
  lemma AgreementMeansNoConflict(tables: seq<View>, examples: Dict<View>)
    requires AllTables(tables)
    requires forall i :: 0 <= i < |tables| ==> tables[i].key in examples.vals
    requires forall j :: 0 <= j < |tables| ==> ColumnSet(examples.vals[tables[j].key]) == ColumnSet(tables[j])
    ensures !Conflicting(tables)
  {
    forall i, j | 0 <= i < |tables| && 0 <= j < |tables| && tables[i].key == tables[j].key
      ensures ColumnSet(tables[i]) == ColumnSet(tables[j])
    {
      assert ColumnSet(examples.vals[tables[i].key]) == ColumnSet(tables[i]);
      assert ColumnSet(examples.vals[tables[j].key]) == ColumnSet(tables[j]);
    }
  }

  /** The loop of `get_tables` comparing each table's column set with the one
      kept for its key; the first mismatch raises. */
  method FindInconsistency(tables: seq<View>, examples: Dict<View>) returns (bad: Option<string>)
    requires AllTables(tables)
    requires forall i :: 0 <= i < |tables| ==> tables[i].key in examples.vals
    requires forall k :: k in examples.vals ==> exists i :: LastWithKey(tables, i, k) && examples.vals[k] == tables[i]
    ensures bad.None? <==> !Conflicting(tables)
    ensures bad.Some? ==> ConflictAt(tables, bad.value)
  {
    for i := 0 to |tables|
      invariant forall j :: 0 <= j < i ==> ColumnSet(examples.vals[tables[j].key]) == ColumnSet(tables[j])
    {
      var ei := examples.vals[tables[i].key];
      if Elems(ei.columnNames) != Elems(tables[i].columnNames) {
        MismatchConflicts(tables, examples, i);
        return Some(tables[i].key);
      }
    }
    AgreementMeansNoConflict(tables, examples);
    bad := None;
  }

  /** Among the first `n` tables, `ts[i]` is the last one with key `k`. */
  ghost predicate LastWithKeyBefore(ts: seq<View>, n: int, i: int, k: string)
    requires AllTables(ts) && n <= |ts|
  {
    0 <= i < n && ts[i].key == k && forall j :: i < j < n ==> ts[j].key != k
  }

  /** The loop state of `IndexByKey` after the first `n` tables: `last` records,
      for each key seen so far, the position of the table kept for it. */
  ghost predicate IndexedUpTo(tables: seq<View>, n: int, examples: Dict<View>, last: map<string, int>)
    requires AllTables(tables)
  {
    && 0 <= n <= |tables|
    && Valid(examples)
    && examples.vals.Keys == last.Keys
    && (forall k :: k in last ==> LastWithKeyBefore(tables, n, last[k], k) && examples.vals[k] == tables[last[k]])
    && (forall j :: 0 <= j < n ==> tables[j].key in last)
  }

  /** One iteration of the comprehension: storing `tables[n]` under its key. */
  lemma IndexedStep(tables: seq<View>, n: int, examples: Dict<View>, last: map<string, int>)
    requires AllTables(tables) && 0 <= n < |tables|
    requires IndexedUpTo(tables, n, examples, last)
    ensures IndexedUpTo(tables, n + 1, Put(examples, tables[n].key, tables[n]), last[tables[n].key := n])
  {
    PutSpec(examples, tables[n].key, tables[n]);
    var key := tables[n].key;
    var last' := last[key := n];
    var examples' := Put(examples, key, tables[n]);
    forall k | k in last'
      ensures LastWithKeyBefore(tables, n + 1, last'[k], k) && examples'.vals[k] == tables[last'[k]]
    {
      if k != key {
        assert LastWithKeyBefore(tables, n, last[k], k);
      }
    }
  }

  /** The finished loop state gives the two promises of `IndexByKey`. */
  lemma IndexedAll(tables: seq<View>, examples: Dict<View>, last: map<string, int>)
    requires AllTables(tables)
    requires IndexedUpTo(tables, |tables|, examples, last)
    ensures examples.vals.Keys == set i | 0 <= i < |tables| :: tables[i].key
    ensures forall k :: k in examples.vals ==> exists i :: LastWithKey(tables, i, k) && examples.vals[k] == tables[i]
  {
    forall k | k in examples.vals
      ensures exists i :: LastWithKey(tables, i, k) && examples.vals[k] == tables[i]
    {
      assert LastWithKeyBefore(tables, |tables|, last[k], k);
      assert LastWithKey(tables, last[k], k);
    }
    forall k | k in examples.vals ensures k in set i | 0 <= i < |tables| :: tables[i].key {
      assert tables[last[k]].key == k;
    }
  }

  /** `{t.key: t for t in tables}`: each key maps to the last table that has it. */
  method IndexByKey(tables: seq<View>) returns (examples: Dict<View>)
    requires AllTables(tables)
    ensures Valid(examples)
    ensures examples.vals.Keys == set i | 0 <= i < |tables| :: tables[i].key
    ensures forall k :: k in examples.vals ==> exists i :: LastWithKey(tables, i, k) && examples.vals[k] == tables[i]
  {
    examples := Empty();
    ghost var last: map<string, int> := map[];
    for i := 0 to |tables|
      invariant IndexedUpTo(tables, i, examples, last)
    {
      IndexedStep(tables, i, examples, last);
      examples := Put(examples, tables[i].key, tables[i]);
      last := last[tables[i].key := i];
    }
    IndexedAll(tables, examples, last);
  }

  // ---------------------------------------------------------------------------
  // TableDescription comparisons and formatting

  /** `__lt__`: by key against another table; `True` against any other view. */
  function TableLessThan(t: View, other: View): (r: bool)
    requires t.TableDescription?
    ensures !other.TableDescription? ==> r
    ensures other.TableDescription? && r ==> t.key != other.key
  {
    StrLessIrreflexive(t.key);
    if !other.TableDescription? then true else StrLess(t.key, other.key)
  }

  /** `__eq__`: by key against another table; `False` against any other view. */
  function TableEquals(t: View, other: View): (r: bool)
    requires t.TableDescription?
    ensures !other.TableDescription? ==> !r
    ensures r ==> other.TableDescription? && !TableLessThan(t, other) && !TableLessThan(other, t)
  {
    StrLessIrreflexive(t.key);
    other.TableDescription? && t.key == other.key
  }

  /** `__hash__`: the hash of the key, for a given string hash. */
  function TableHash(t: View, hash: string -> int): (r: int)
    requires t.TableDescription?
    ensures forall u: View :: TableEquals(t, u) ==> r == hash(u.key)
  {
    hash(t.key)
  }

  /** Equality and hashing look only at the key: tables with the same key and
      different columns are equal, and equal tables hash alike. */
  lemma TableIdentityIsKey(t: View, u: View, hash: string -> int)
    requires t.TableDescription? && u.TableDescription?
    ensures TableEquals(t, u) <==> t.key == u.key
    ensures TableEquals(t, u) ==> TableEquals(u, t) && TableHash(t, hash) == TableHash(u, hash)
  {
  }

  /** Among tables, `<` is a strict total order consistent with `==`; against
      any other view a table is always less and never equal. */
  lemma TableLessThanIsStrictOrder(t: View, u: View, w: View)
    requires t.TableDescription? && u.TableDescription? && w.TableDescription?
    ensures !TableLessThan(t, t)
    ensures TableLessThan(t, u) && TableLessThan(u, w) ==> TableLessThan(t, w)
    ensures TableLessThan(t, u) ==> !TableLessThan(u, t)
    ensures TableLessThan(t, u) || TableEquals(t, u) || TableLessThan(u, t)
    ensures TableEquals(t, u) ==> !TableLessThan(t, u)
  {
    StrLessIrreflexive(t.key);
    if TableLessThan(t, u) && TableLessThan(u, w) {
      StrLessTransitive(t.key, u.key, w.key);
    }
    if TableLessThan(t, u) {
      StrLessAsymmetric(t.key, u.key);
    }
    if t.key != u.key {
      StrLessTotal(t.key, u.key);
    }
  }

  lemma TableAgainstOtherViews(t: View, other: View)
    requires t.TableDescription? && !other.TableDescription?
    ensures TableLessThan(t, other) && !TableEquals(t, other)
  {
  }

  /** `TableDescription.format_ops_implementation`. */
  function FormatTable(t: View): (r: string)
    requires t.TableDescription?
    ensures |r| >= |t.key| + 9
    ensures r[..|t.key| + 8] == "Table(" + t.key + "; " && r[|r| - 1] == ')'
  {
    var nc := if |t.columnNames| < 10 then |t.columnNames| else 10;
    "Table(" + t.key + "; " + Join(", ", t.columnNames[..nc]) + (if nc < |t.columnNames| then ", ..." else "") + ")"
  }

  /** At most the first ten columns are shown; `", ..."` is added exactly when
      columns are left out, and columns after the tenth never change the text. */
  lemma FormatTableTruncates(t: View, u: View)
    requires t.TableDescription? && u.TableDescription?
    ensures |t.columnNames| <= 10 ==> FormatTable(t) == "Table(" + t.key + "; " + Join(", ", t.columnNames) + ")"
    ensures |t.columnNames| > 10 ==>
      var shown := TableDescription(t.tableName, t.columnNames[..10], t.qualifiers, t.key);
      FormatTable(t) == FormatTable(shown)[..|FormatTable(shown)| - 1] + ", ...)"
    ensures (|t.columnNames| > 10 && |u.columnNames| > 10 && t.key == u.key &&
             t.columnNames[..10] == u.columnNames[..10]) ==> FormatTable(t) == FormatTable(u)
  {
    if |t.columnNames| <= 10 {
      assert t.columnNames[..|t.columnNames|] == t.columnNames;
    }
    if |t.columnNames| > 10 {
      var shown := TableDescription(t.tableName, t.columnNames[..10], t.qualifiers, t.key);
      assert shown.columnNames[..10] == t.columnNames[..10];
    }
  }

  // ---------------------------------------------------------------------------
  // collect_representation

  /** One step record of the flattened pipeline. */
  datatype Record =
    | TableRecord(tableName: string, qualifiers: Dict<string>, columnNames: seq<string>, key: string)
    | ExtendRecord(ops: Dict<Expr>, partitionBy: seq<string>, orderBy: seq<string>, reverse: seq<string>)
    | NaturalJoinRecord(byColumns: seq<string>, jointype: string, b: seq<Record>)

  /** The records of `v`'s pipeline, base table first and `v` last; a join
      embeds the full list of its right side. */
  function Representation(v: View): seq<Record>
  {
    match v
    case TableDescription(name, cols, q, key) => [TableRecord(name, q, cols, key)]
    case ExtendNode(s, ops, pb, ob, rev, _) => Representation(s) + [ExtendRecord(ops, pb, ob, rev)]
    case NaturalJoinNode(a, b, byColumns, jt, _) => Representation(a) + [NaturalJoinRecord(byColumns, jt, Representation(b))]
  }

  /** The record `v` itself contributes. */
  function OwnRecord(v: View): Record
  {
    match v
    case TableDescription(name, cols, q, key) => TableRecord(name, q, cols, key)
    case ExtendNode(_, ops, pb, ob, rev, _) => ExtendRecord(ops, pb, ob, rev)
    case NaturalJoinNode(_, b, byColumns, jt, _) => NaturalJoinRecord(byColumns, jt, Representation(b))
  }

  /** The nodes along the `sources[0]` chain, from the base table to `v`. */
  function Chain(v: View): seq<View>
  {
    match v
    case TableDescription(_, _, _, _) => [v]
    case ExtendNode(s, _, _, _, _, _) => Chain(s) + [v]
    case NaturalJoinNode(a, _, _, _, _) => Chain(a) + [v]
  }

  /** One record per node of the `sources[0]` chain, in chain order: the first
      is the base table's `TableRecord`, the last is `v`'s own record. */
  lemma {:induction false} RepresentationFollowsChain(v: View)
    ensures |Representation(v)| == |Chain(v)| > 0
    ensures forall i :: 0 <= i < |Chain(v)| ==> Representation(v)[i] == OwnRecord(Chain(v)[i])
    ensures Chain(v)[0].TableDescription? && Representation(v)[0].TableRecord?
    ensures Chain(v)[|Chain(v)| - 1] == v && Representation(v)[|Representation(v)| - 1] == OwnRecord(v)
  {
    match v
    case TableDescription(_, _, _, _) =>
    case ExtendNode(s, _, _, _, _, _) =>
      RepresentationFollowsChain(s);
    case NaturalJoinNode(a, _, _, _, _) =>
      RepresentationFollowsChain(a);
  }

  /** The list that `collect_representation_implementation` threads through the
      recursion and extends at the front. */
  class RecordList {
    var records: seq<Record>

    constructor()
      ensures records == []
    {
      records := [];
    }

    /** `pipeline.insert(0, od)`. */
    method InsertFront(r: Record)
      modifies this
      ensures records == [r] + old(records)
    {
      records := [r] + records;
    }
  }

  /** `collect_representation_implementation`: prepends the node's record to
      `pipeline` (a new list when none is given), then recurses into
      `sources[0]` with the same list; a join's right side gets a list of its own. */
  method CollectRepresentationImplementation(v: View, pipeline: RecordList?) returns (result: RecordList)
    modifies pipeline
    decreases v
    ensures pipeline != null ==> result == pipeline
    ensures pipeline == null ==> fresh(result)
    ensures result.records == Representation(v) + (if pipeline == null then [] else old(pipeline.records))
  {
    var p := pipeline;
    if p == null {
      p := new RecordList();
    }
    ghost var rest := p.records;
    assert rest == if pipeline == null then [] else old(pipeline.records);
    match v
    case TableDescription(name, cols, q, key) =>
      p.InsertFront(TableRecord(name, q, cols, key));
      result := p;
    case ExtendNode(s, ops, pb, ob, rev, _) =>
      p.InsertFront(ExtendRecord(ops, pb, ob, rev));
      result := CollectRepresentationImplementation(s, p);
      assert Representation(s) + ([ExtendRecord(ops, pb, ob, rev)] + rest) == Representation(v) + rest;
    case NaturalJoinNode(a, b, byColumns, jt, _) =>
      var right := CollectRepresentationImplementation(b, null);
      assert p.records == rest;
      assert right.records == Representation(b) + [];
      assert Representation(b) + [] == Representation(b);
      var own := NaturalJoinRecord(byColumns, jt, right.records);
      p.InsertFront(own);
      result := CollectRepresentationImplementation(a, p);
      assert Representation(a) + ([own] + rest) == Representation(v) + rest;
  }

  /** `collect_representation`: the table-consistency check, then the records. */
  method CollectRepresentation(v: View, pipeline: RecordList?) returns (r: Result<RecordList, SchemaError>)
    modifies pipeline
    ensures AllTables(Leaves(v))
    ensures r.Err? <==> Conflicting(Leaves(v))
    ensures r.Err? && pipeline != null ==> pipeline.records == old(pipeline.records)
    ensures r.Ok? ==> r.value.records == Representation(v) + (if pipeline == null then [] else old(pipeline.records))
    ensures r.Ok? && pipeline != null ==> r.value == pipeline
    ensures r.Ok? && pipeline == null ==> fresh(r.value)
  {
    var tables := GetTables(v);
    if tables.Err? {
      return Err(tables.error);
    }
    var result := CollectRepresentationImplementation(v, pipeline);
    r := Ok(result);
  }
}
