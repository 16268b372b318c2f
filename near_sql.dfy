/** SQL fragments on their way to text (`data_algebra/near_sql.py`): each
    fragment keeps its output terms, a quoted name for the sub-query it becomes,
    and the SQL of its inputs, and `to_sql` assembles a `SELECT` statement. The
    database's identifier quoting is a parameter, so any dialect can be plugged in. */
module NearSql {
  import opened Wrappers
  import opened Text
  import opened Dicts

  /** The exceptions rendering can raise: a column missing from the terms, or
      the quoting function's own rejection of an identifier. */
  datatype SqlError = KeyError(column: string) | TypeError | ValueError

  /** A database model's `quote_identifier`. */
  type Quote = string -> Result<string, SqlError>

  /** Output column name to its SQL expression; `None` means "the column itself". */
  type Terms = Dict<Option<string>>

  /** What `summary()` returns, and what a step keeps of the step it reads from. */
  datatype StepSummary = StepSummary(quotedQueryName: string, isTable: bool)

  const PlaceholderColumn: string := "data_algebra_placeholder_col_name"

  // ---------------------------------------------------------------------------
  // The select list

  /** `enc_term(k)`: the quoted name alone, or `v + " AS " + quoted name`. */
  function EncodeTerm(vals: map<string, Option<string>>, k: string, quote: Quote): (r: Result<string, SqlError>)
  {
    if k !in vals then Err(KeyError(k))
    else
      var q :- quote(k);
      match vals[k]
      case None => Ok(q)
      case Some(v) => Ok(v + " AS " + q)
  }

  /** `[enc_term(k) for k in columns]`: the items in column order, or the error
      of the first column that fails. */
  function TermStrs(vals: map<string, Option<string>>, columns: seq<string>, quote: Quote): (r: Result<seq<string>, SqlError>)
    ensures r.Ok? <==> forall i :: 0 <= i < |columns| ==> EncodeTerm(vals, columns[i], quote).Ok?
    ensures r.Ok? ==> (|r.value| == |columns| &&
      forall i :: 0 <= i < |columns| ==> r.value[i] == EncodeTerm(vals, columns[i], quote).value)
    ensures r.Err? ==> exists i ::
      && 0 <= i < |columns|
      && EncodeTerm(vals, columns[i], quote) == Err(r.error)
      && (forall j :: 0 <= j < i ==> EncodeTerm(vals, columns[j], quote).Ok?)
  {
    if |columns| == 0 then Ok([])
    else
      var first :- EncodeTerm(vals, columns[0], quote);
      var rest :- TermStrs(vals, columns[1..], quote);
      Ok([first] + rest)
  }

  /** When the quoting function accepts every requested name, rendering fails
      exactly when a requested column has no term, and the error names the first such column. */
  lemma TermStrsMissingColumn(vals: map<string, Option<string>>, columns: seq<string>, quote: Quote)
    requires forall i :: 0 <= i < |columns| ==> quote(columns[i]).Ok?
    ensures TermStrs(vals, columns, quote).Ok? <==> Elems(columns) <= vals.Keys
    ensures TermStrs(vals, columns, quote).Err? ==>
      exists i :: 0 <= i < |columns| && columns[i] !in vals && TermStrs(vals, columns, quote).error == KeyError(columns[i]) &&
        forall j :: 0 <= j < i ==> columns[j] in vals
  {
    var r := TermStrs(vals, columns, quote);
    if r.Ok? {
      forall x | x in Elems(columns) ensures x in vals {
        var i :| 0 <= i < |columns| && columns[i] == x;
        assert EncodeTerm(vals, columns[i], quote).Ok?;
      }
    } else {
      var i :| 0 <= i < |columns| && EncodeTerm(vals, columns[i], quote) == Err(r.error) &&
        forall j :: 0 <= j < i ==> EncodeTerm(vals, columns[j], quote).Ok?;
      assert columns[i] !in vals;
      assert columns[i] in Elems(columns);
    }
  }

  /** `'1 AS ' + quote("data_algebra_placeholder_col_name")`. */
  function PlaceholderTerm(quote: Quote): Result<string, SqlError>
  {
    var q :- quote(PlaceholderColumn);
    Ok("1 AS " + q)
  }

  /** The select list, with the placeholder column standing in for an empty one. */
  function SelectTerms(vals: map<string, Option<string>>, columns: seq<string>, quote: Quote): (r: Result<seq<string>, SqlError>)
    ensures r.Ok? ==> |r.value| > 0
    ensures |columns| > 0 ==> r == TermStrs(vals, columns, quote)
    ensures |columns| == 0 ==> (r.Ok? <==> PlaceholderTerm(quote).Ok?)
    ensures |columns| == 0 && r.Ok? ==> r.value == [PlaceholderTerm(quote).value]
  {
    var strs :- TermStrs(vals, columns, quote);
    WithPlaceholder(strs, quote)
  }

  /** `if len(terms_strs) < 1: terms_strs = [placeholder]`. */
  function WithPlaceholder(items: seq<string>, quote: Quote): (r: Result<seq<string>, SqlError>)
    ensures |items| > 0 ==> r == Ok(items)
    ensures |items| == 0 ==> (r.Ok? <==> PlaceholderTerm(quote).Ok?)
    ensures |items| == 0 && r.Ok? ==> r.value == [PlaceholderTerm(quote).value]
  {
    if |items| < 1 then
      var p :- PlaceholderTerm(quote);
      Ok([p])
    else Ok(items)
  }

  /** `"SELECT " + ", ".join(terms_strs) + " FROM "`. */
  function SelectHead(items: seq<string>): string
  {
    "SELECT " + Join(", ", items) + " FROM "
  }

  /** `columns`, or the term names in order when it is `None`. */
  function DefaultColumns(terms: Terms, columns: Option<seq<string>>): seq<string>
  {
    if columns.None? then terms.keys else columns.value
  }

  // ---------------------------------------------------------------------------
  // Constants

  /** A constants dictionary as terms: every value is an expression. */
  function Lift(c: Dict<string>): (r: Terms)
    requires Valid(c)
    ensures Valid(r) && r.keys == c.keys
    ensures forall k :: k in r.vals <==> k in c.vals
    ensures forall k :: k in c.vals ==> r.vals[k] == Some(c.vals[k])
  {
    Dict(c.keys, map k | k in c.vals :: Some(c.vals[k]))
  }

  /** `if constants: terms.update(constants)`. */
  function MergeConstants(terms: Terms, constants: Option<Dict<string>>): (r: Terms)
    requires Valid(terms) && (constants.Some? ==> Valid(constants.value))
    ensures Valid(r)
    ensures constants.None? ==> r == terms
    ensures constants.Some? ==> r.keys == terms.keys + Absent(constants.value.keys, terms.vals.Keys)
    ensures constants.Some? ==> forall k :: k in r.vals <==> k in terms.vals || k in constants.value.vals
    ensures constants.Some? ==> forall k :: k in r.vals ==>
      r.vals[k] == if k in constants.value.vals then Some(constants.value.vals[k]) else terms.vals[k]
  {
    if constants.Some? && |constants.value.keys| > 0 then Update(terms, Lift(constants.value))
    else if constants.Some? then
      DistinctIffCardinality(constants.value.keys);
      assert Absent(constants.value.keys, terms.vals.Keys) == [];
      terms
    else terms
  }

  /** Merging the same constants again changes nothing. */
  lemma {:induction false} MergeConstantsIdempotent(terms: Terms, constants: Option<Dict<string>>)
    requires Valid(terms) && (constants.Some? ==> Valid(constants.value))
    ensures MergeConstants(MergeConstants(terms, constants), constants) == MergeConstants(terms, constants)
  {
    if constants.Some? {
      var once := MergeConstants(terms, constants);
      var twice := MergeConstants(once, constants);
      AbsentOfKnown(constants.value.keys, once.vals.Keys);
      assert twice.keys == once.keys;
      assert twice.vals == once.vals;
    }
  }

  // ---------------------------------------------------------------------------
  // The SQL of each kind of fragment

  /** `" " + suffix` when there is a non-empty suffix. */
  function SuffixText(suffix: Option<string>): string
  {
    if suffix.Some? && |suffix.value| > 0 then " " + suffix.value else ""
  }

  /** One input of a binary or union step: a table's SQL followed by its name,
      or a parenthesised sub-query followed by its name. */
  function SideSql(subSql: string, previous: StepSummary): string
  {
    if previous.isTable then subSql + " " + previous.quotedQueryName
    else "( " + subSql + " ) " + previous.quotedQueryName
  }

  /** `NearSQLUnaryStep.to_sql`, from the terms before the call. */
  function UnarySql(terms: Terms, columns: Option<seq<string>>, constants: Option<Dict<string>>, quote: Quote,
                    subSql: string, suffix: Option<string>, previous: StepSummary): Result<string, SqlError>
    requires Valid(terms) && (constants.Some? ==> Valid(constants.value))
  {
    var cols := DefaultColumns(terms, columns);
    var merged := MergeConstants(terms, constants);
    var items :- SelectTerms(merged.vals, cols, quote);
    var sql := if previous.isTable then SelectHead(items) + subSql
               else SelectHead(items) + "( " + subSql + " ) " + previous.quotedQueryName;
    Ok(sql + SuffixText(suffix))
  }

  /** `NearSQLBinaryStep.to_sql`, from the terms before the call. */
  function BinarySql(terms: Terms, columns: Option<seq<string>>, constants: Option<Dict<string>>, quote: Quote,
                     subSql1: string, previous1: StepSummary, joiner: string, subSql2: string, previous2: StepSummary,
                     suffix: Option<string>): Result<string, SqlError>
    requires Valid(terms) && (constants.Some? ==> Valid(constants.value))
  {
    var cols := DefaultColumns(terms, columns);
    var merged := MergeConstants(terms, constants);
    var items :- SelectTerms(merged.vals, cols, quote);
    Ok(SelectHead(items) + SideSql(subSql1, previous1) + " " + joiner + " " + " " + SideSql(subSql2, previous2)
       + SuffixText(suffix))
  }

  /** `NearSQLUStep.to_sql`, from the terms before the call. */
  function UnionSql(terms: Terms, columns: Option<seq<string>>, constants: Option<Dict<string>>, quote: Quote,
                    subSql1: string, previous1: StepSummary, subSql2: string, previous2: StepSummary): Result<string, SqlError>
    requires Valid(terms) && (constants.Some? ==> Valid(constants.value))
  {
    var cols := DefaultColumns(terms, columns);
    var merged := MergeConstants(terms, constants);
    var items :- SelectTerms(merged.vals, cols, quote);
    Ok("SELECT " + Join(", ", items) + " FROM ( " + SideSql(subSql1, previous1) + " UNION ALL " + " "
       + SideSql(subSql2, previous2) + " )")
  }

  /** `NearSQLq.to_sql`, from the terms before the call. */
  function QuerySql(terms: Terms, columns: Option<seq<string>>, constants: Option<Dict<string>>, quote: Quote,
                    query: string, prevQuotedQueryName: string): Result<string, SqlError>
    requires Valid(terms) && (constants.Some? ==> Valid(constants.value))
  {
    var cols := DefaultColumns(terms, columns);
    var merged := MergeConstants(terms, constants);
    var items :- SelectTerms(merged.vals, cols, quote);
    Ok("SELECT " + Join(", ", items) + " FROM ( " + query + " ) " + prevQuotedQueryName)
  }

  /** A `NearSQLq` renders exactly as a unary step without suffix over a
      sub-query that is not a table. */
  lemma QueryIsUnaryOverSubquery(terms: Terms, columns: Option<seq<string>>, constants: Option<Dict<string>>,
                                 quote: Quote, query: string, prevQuotedQueryName: string)
    requires Valid(terms) && (constants.Some? ==> Valid(constants.value))
    ensures QuerySql(terms, columns, constants, quote, query, prevQuotedQueryName)
         == UnarySql(terms, columns, constants, quote, query, None, StepSummary(prevQuotedQueryName, false))
  {
    var merged := MergeConstants(terms, constants);
    var items := SelectTerms(merged.vals, DefaultColumns(terms, columns), quote);
    if items.Ok? {
      SubqueryText(Join(", ", items.value), query, prevQuotedQueryName);
    }
  }

  lemma SubqueryText(j: string, query: string, prev: string)
    ensures "SELECT " + j + " FROM ( " + query + " ) " + prev
         == "SELECT " + j + " FROM " + "( " + query + " ) " + prev + SuffixText(None)
  {
    assert " FROM ( " == " FROM " + "( ";
  }

  /** A union step renders as the binary step with joiner `UNION ALL` and no
      suffix, with its FROM clause put in parentheses. */
  lemma UnionIsParenthesisedBinary(terms: Terms, columns: Option<seq<string>>,
                                   constants: Option<Dict<string>>, quote: Quote,
                                   subSql1: string, previous1: StepSummary,
                                   subSql2: string, previous2: StepSummary)
    requires Valid(terms) && (constants.Some? ==> Valid(constants.value))
    ensures var b := BinarySql(terms, columns, constants, quote, subSql1, previous1, "UNION ALL", subSql2, previous2, None);
            var u := UnionSql(terms, columns, constants, quote, subSql1, previous1, subSql2, previous2);
            && (b.Ok? <==> u.Ok?)
            && (b.Ok? ==> exists head: string :: |head| <= |b.value| && b.value[..|head|] == head &&
                                                 u.value == head + "( " + b.value[|head|..] + " )")
  {
    var merged := MergeConstants(terms, constants);
    var items := SelectTerms(merged.vals, DefaultColumns(terms, columns), quote);
    if items.Ok? {
      var j := Join(", ", items.value);
      var head := SelectHead(items.value);
      var s1, s2 := SideSql(subSql1, previous1), SideSql(subSql2, previous2);
      UnionText(j, s1, s2);
      ParenthesisedBody(head, s1, s2);
      var bv := BinarySql(terms, columns, constants, quote, subSql1, previous1, "UNION ALL", subSql2, previous2, None).value;
      var uv := UnionSql(terms, columns, constants, quote, subSql1, previous1, subSql2, previous2).value;
      assert |head| <= |bv| && bv[..|head|] == head && uv == head + "( " + bv[|head|..] + " )";
    }
  }

  lemma UnionText(j: string, s1: string, s2: string)
    ensures "SELECT " + j + " FROM ( " + s1 + " UNION ALL " + " " + s2 + " )"
         == "SELECT " + j + " FROM " + "( " + s1 + " UNION ALL " + " " + s2 + " )"
  {
    assert " FROM ( " == " FROM " + "( ";
  }

  lemma ParenthesisedBody(head: string, s1: string, s2: string)
    ensures var b := head + s1 + " " + "UNION ALL" + " " + " " + s2 + SuffixText(None);
            var u := head + "( " + s1 + " UNION ALL " + " " + s2 + " )";
            |head| <= |b| && b[..|head|] == head && u == head + "( " + b[|head|..] + " )"
  {
    var body := s1 + " " + "UNION ALL" + " " + " " + s2;
    var b := head + s1 + " " + "UNION ALL" + " " + " " + s2 + SuffixText(None);
    assert b == head + body;
    assert " " + "UNION ALL" + " " == " UNION ALL ";
    assert body == s1 + " UNION ALL " + " " + s2;
  }

  /** With `columns=None` the select list is taken from the terms before the
      constants are merged in, so constants with new names are not selected; but
      the merge changes the fragment's own terms, so a second call selects the
      first call's items followed by `v AS k` for each newly merged constant. */
  lemma NewConstantsSelectedFromSecondCall(terms: Terms, constants: Dict<string>, quote: Quote)
    requires Valid(terms) && Valid(constants) && |terms.keys| > 0
    ensures var once := MergeConstants(terms, Some(constants));
            var added := Absent(constants.keys, terms.vals.Keys);
            var first := SelectTerms(once.vals, DefaultColumns(terms, None), quote);
            var second := SelectTerms(MergeConstants(once, Some(constants)).vals, DefaultColumns(once, None), quote);
            && (forall i :: 0 <= i < |added| ==> added[i] in constants.vals)
            && (first.Ok? <==> forall i :: 0 <= i < |terms.keys| ==> quote(terms.keys[i]).Ok?)
            && (first.Ok? ==> |first.value| == |terms.keys|)
            && (second.Ok? <==> first.Ok? && forall i :: 0 <= i < |added| ==> quote(added[i]).Ok?)
            && (second.Ok? ==> |second.value| == |first.value| + |added| && second.value[..|first.value|] == first.value)
            && (second.Ok? ==> forall i :: 0 <= i < |added| ==>
                  second.value[|first.value| + i] == constants.vals[added[i]] + " AS " + quote(added[i]).value)
  {
    var once := MergeConstants(terms, Some(constants));
    var added := Absent(constants.keys, terms.vals.Keys);
    MergedConstantTerms(terms, constants);
    SecondCallItems(once.vals, terms.keys, added, constants, quote);
    BothCallsSelect(terms, constants, quote);
  }

  /** The two select lists, as item lists over the merged terms. */
  lemma BothCallsSelect(terms: Terms, constants: Dict<string>, quote: Quote)
    requires Valid(terms) && Valid(constants) && |terms.keys| > 0
    ensures var once := MergeConstants(terms, Some(constants));
            var added := Absent(constants.keys, terms.vals.Keys);
            && SelectTerms(once.vals, DefaultColumns(terms, None), quote) == TermStrs(once.vals, terms.keys, quote)
            && SelectTerms(MergeConstants(once, Some(constants)).vals, DefaultColumns(once, None), quote)
               == TermStrs(once.vals, terms.keys + added, quote)
  {
    var once := MergeConstants(terms, Some(constants));
    MergeConstantsIdempotent(terms, Some(constants));
    assert once.keys == terms.keys + Absent(constants.keys, terms.vals.Keys);
    assert |once.keys| > 0;
  }

  /** After the merge the old names still have terms, and each newly added name
      has its constant as its term. */
  lemma MergedConstantTerms(terms: Terms, constants: Dict<string>)
    requires Valid(terms) && Valid(constants)
    ensures var once := MergeConstants(terms, Some(constants));
            var added := Absent(constants.keys, terms.vals.Keys);
            && once.keys == terms.keys + added
            && Elems(terms.keys) <= once.vals.Keys
            && forall i :: 0 <= i < |added| ==>
                 added[i] in once.vals && added[i] in constants.vals && once.vals[added[i]] == Some(constants.vals[added[i]])
  {
    var once := MergeConstants(terms, Some(constants));
    var added := Absent(constants.keys, terms.vals.Keys);
    AbsentElems(constants.keys, terms.vals.Keys);
    forall i | 0 <= i < |added|
      ensures added[i] in once.vals && added[i] in constants.vals && once.vals[added[i]] == Some(constants.vals[added[i]])
    {
      assert added[i] in Elems(added);
    }
  }

  /** The core of the above on the item lists themselves. */
  lemma SecondCallItems(vals: map<string, Option<string>>, old_: seq<string>, added: seq<string>,
                        c: Dict<string>, quote: Quote)
    requires Elems(old_) <= vals.Keys
    requires forall i :: 0 <= i < |added| ==> added[i] in vals && added[i] in c.vals && vals[added[i]] == Some(c.vals[added[i]])
    ensures var first, second := TermStrs(vals, old_, quote), TermStrs(vals, old_ + added, quote);
            && (first.Ok? <==> forall i :: 0 <= i < |old_| ==> quote(old_[i]).Ok?)
            && (first.Ok? ==> |first.value| == |old_|)
            && (second.Ok? <==> first.Ok? && forall i :: 0 <= i < |added| ==> quote(added[i]).Ok?)
            && (second.Ok? ==> |second.value| == |first.value| + |added| && second.value[..|first.value|] == first.value)
            && (second.Ok? ==> forall i :: 0 <= i < |added| ==>
                  second.value[|first.value| + i] == c.vals[added[i]] + " AS " + quote(added[i]).value)
  {
    KnownColumnsRender(vals, old_, quote);
    ConstantColumnsRender(vals, c, added, quote);
    TermStrsConcat(vals, old_, added, quote);
  }

  /** Columns that all have terms render exactly when each name can be quoted. */
  lemma KnownColumnsRender(vals: map<string, Option<string>>, columns: seq<string>, quote: Quote)
    requires Elems(columns) <= vals.Keys
    ensures TermStrs(vals, columns, quote).Ok? <==> forall i :: 0 <= i < |columns| ==> quote(columns[i]).Ok?
  {
    forall i | 0 <= i < |columns|
      ensures EncodeTerm(vals, columns[i], quote).Ok? <==> quote(columns[i]).Ok?
    {
      assert columns[i] in Elems(columns);
    }
  }

  /** Columns whose terms are constants render as `v AS` and the quoted name. */
  lemma ConstantColumnsRender(vals: map<string, Option<string>>, c: Dict<string>, columns: seq<string>, quote: Quote)
    requires forall i :: 0 <= i < |columns| ==> columns[i] in vals && columns[i] in c.vals && vals[columns[i]] == Some(c.vals[columns[i]])
    ensures var r := TermStrs(vals, columns, quote);
            && (r.Ok? <==> forall i :: 0 <= i < |columns| ==> quote(columns[i]).Ok?)
            && (r.Ok? ==> forall i :: 0 <= i < |columns| ==> r.value[i] == c.vals[columns[i]] + " AS " + quote(columns[i]).value)
  {
  }

  /** Rendering a concatenation of column lists renders each list in turn. */
  lemma {:induction false} TermStrsConcat(vals: map<string, Option<string>>, xs: seq<string>, ys: seq<string>, quote: Quote)
    ensures var r, a, b := TermStrs(vals, xs + ys, quote), TermStrs(vals, xs, quote), TermStrs(vals, ys, quote);
            && (r.Ok? <==> a.Ok? && b.Ok?)
            && (r.Ok? ==> r.value == a.value + b.value)
    decreases |xs|
  {
    if |xs| == 0 {
      assert xs + ys == ys;
    } else {
      assert (xs + ys)[0] == xs[0];
      assert (xs + ys)[1..] == xs[1..] + ys;
      TermStrsConcat(vals, xs[1..], ys, quote);
    }
  }

  // ---------------------------------------------------------------------------
  // The fragment classes

  /** `NearSQL.summary`, which every fragment but the table inherits. */
  function StepSummaryOf(quotedQueryName: string): (s: StepSummary)
    ensures !s.isTable && s.quotedQueryName == quotedQueryName
  {
    StepSummary(quotedQueryName, false)
  }

  /** A table read: its SQL is the quoted table name unless columns must be
      listed or constants added. */
  class NearSqlTable {
    const terms: Terms
    const quotedQueryName: string
    const quotedTableName: string
    const tempTables: set<string>

    constructor(terms: Terms, quotedQueryName: string, quotedTableName: string)
      requires Valid(terms)
      ensures this.terms == terms && this.quotedQueryName == quotedQueryName
      ensures this.quotedTableName == quotedTableName && tempTables == {}
    {
      this.terms := terms;
      this.quotedQueryName := quotedQueryName;
      this.quotedTableName := quotedTableName;
      this.tempTables := {};
    }

    function Summary(): (s: StepSummary)
      ensures s.isTable && s.quotedQueryName == quotedQueryName
    {
      StepSummary(quotedQueryName, true)
    }

    /** `to_sql`: the bare table name, or a `SELECT` of the quoted columns
        followed by the constants (see `TableSqlCases`). */
    function ToSql(columns: Option<seq<string>>, forceSql: bool, constants: Option<Dict<string>>, quote: Quote)
      : (r: Result<string, SqlError>)
      requires Valid(terms) && (constants.Some? ==> Valid(constants.value))
      ensures r.Ok? ==> |quotedTableName| <= |r.value| && r.value[|r.value| - |quotedTableName|..] == quotedTableName
    {
      var cols := DefaultColumns(terms, columns);
      var force := forceSql && |cols| > 0;
      var haveConstants := constants.Some? && |constants.value.keys| > 0;
      if force || haveConstants then
        var items :- TableItems(cols, if haveConstants then constants else None, quote);
        match WithPlaceholder(items, quote)
        case Err(e) => Err(e)
        case Ok(selected) => Ok(SelectHead(selected) + quotedTableName)
      else Ok(quotedTableName)
    }
  }

  /** The quoted columns, then the constants as `v AS k`. */
  function TableItems(columns: seq<string>, constants: Option<Dict<string>>, quote: Quote): Result<seq<string>, SqlError>
    requires constants.Some? ==> Valid(constants.value)
  {
    var names :- TermStrs(Bare(columns), columns, quote);
    var extra :- if constants.Some? then TermStrs(Lift(constants.value).vals, constants.value.keys, quote) else Ok([]);
    Ok(names + extra)
  }

  lemma TableItemsContent(columns: seq<string>, constants: Option<Dict<string>>, quote: Quote)
    requires constants.Some? ==> Valid(constants.value)
    ensures var c := if constants.Some? then constants.value else Empty();
            var r := TableItems(columns, constants, quote);
            && (forall i :: 0 <= i < |c.keys| ==> c.keys[i] in c.vals)
            && (r.Ok? <==> (forall i :: 0 <= i < |columns| ==> quote(columns[i]).Ok?) &&
                           (forall i :: 0 <= i < |c.keys| ==> quote(c.keys[i]).Ok?))
            && (r.Ok? ==>
                 && |r.value| == |columns| + |c.keys|
                 && (forall i :: 0 <= i < |columns| ==> r.value[i] == quote(columns[i]).value)
                 && (forall i :: 0 <= i < |c.keys| ==> r.value[|columns| + i] == c.vals[c.keys[i]] + " AS " + quote(c.keys[i]).value))
  {
    BareTermsQuoteEachColumn(columns, quote);
    var names := TermStrs(Bare(columns), columns, quote);
    if constants.Some? {
      var c := constants.value;
      assert forall i :: 0 <= i < |c.keys| ==> c.keys[i] in Elems(c.keys);
      ConstantTermsAlias(c, quote);
      var extra := TermStrs(Lift(c).vals, c.keys, quote);
      if names.Ok? && extra.Ok? {
        assert TableItems(columns, constants, quote) == Ok(names.value + extra.value);
      }
    } else if names.Ok? {
      assert TableItems(columns, constants, quote) == Ok(names.value + []);
    }
  }

  /** Every column mapped to "the column itself". */
  function Bare(columns: seq<string>): map<string, Option<string>>
  {
    map k | k in columns :: None
  }

  /** `[quote_identifier(k) for k in columns]`. */
  lemma BareTermsQuoteEachColumn(columns: seq<string>, quote: Quote)
    ensures var r := TermStrs(Bare(columns), columns, quote);
            && (r.Ok? <==> forall i :: 0 <= i < |columns| ==> quote(columns[i]).Ok?)
            && (r.Ok? ==> |r.value| == |columns| && forall i :: 0 <= i < |columns| ==> r.value[i] == quote(columns[i]).value)
  {
    forall i | 0 <= i < |columns| ensures EncodeTerm(Bare(columns), columns[i], quote) == quote(columns[i]) {
      assert columns[i] in Bare(columns);
    }
  }

  /** `[v + " AS " + quote_identifier(k) for (k, v) in constants.items()]`. */
  lemma ConstantTermsAlias(c: Dict<string>, quote: Quote)
    requires Valid(c)
    ensures var r := TermStrs(Lift(c).vals, c.keys, quote);
            && (r.Ok? <==> forall i :: 0 <= i < |c.keys| ==> quote(c.keys[i]).Ok?)
            && (r.Ok? ==> |r.value| == |c.keys|)
            && (r.Ok? ==> forall i :: 0 <= i < |c.keys| ==> r.value[i] == c.vals[c.keys[i]] + " AS " + quote(c.keys[i]).value)
  {
    forall i | 0 <= i < |c.keys|
      ensures EncodeTerm(Lift(c).vals, c.keys[i], quote).Ok? <==> quote(c.keys[i]).Ok?
      ensures quote(c.keys[i]).Ok? ==>
        EncodeTerm(Lift(c).vals, c.keys[i], quote).value == c.vals[c.keys[i]] + " AS " + quote(c.keys[i]).value
    {
      assert c.keys[i] in Elems(c.keys);
    }
  }

  /** A table fragment renders as its bare name unless it is forced with a
      non-empty column list or given constants. */
  lemma TableSqlBareName(t: NearSqlTable, columns: Option<seq<string>>, forceSql: bool,
                         constants: Option<Dict<string>>, quote: Quote)
    requires Valid(t.terms) && (constants.Some? ==> Valid(constants.value))
    ensures var cols := DefaultColumns(t.terms, columns);
            var haveConstants := constants.Some? && |constants.value.keys| > 0;
            t.ToSql(columns, forceSql, constants, quote) == Ok(t.quotedTableName) <==> !(forceSql && |cols| > 0) && !haveConstants
  {
    var r := t.ToSql(columns, forceSql, constants, quote);
    var cols := DefaultColumns(t.terms, columns);
    var haveConstants := constants.Some? && |constants.value.keys| > 0;
    if ((forceSql && |cols| > 0) || haveConstants) && r.Ok? {
      var names := TermStrs(Bare(cols), cols, quote).value;
      var extra := (if haveConstants then TermStrs(Lift(constants.value).vals, constants.value.keys, quote) else Ok([])).value;
      assert r.value == SelectHead(names + extra) + t.quotedTableName;
      assert |r.value| > |t.quotedTableName|;
    }
  }

  /** Otherwise it selects the items of `TableItemsContent`, a list that is
      never empty here, so the placeholder column is never used. */
  lemma TableSqlSelectList(t: NearSqlTable, columns: Option<seq<string>>, forceSql: bool,
                           constants: Option<Dict<string>>, quote: Quote)
    requires Valid(t.terms) && (constants.Some? ==> Valid(constants.value))
    requires (forceSql && |DefaultColumns(t.terms, columns)| > 0) || (constants.Some? && |constants.value.keys| > 0)
    ensures var cols := DefaultColumns(t.terms, columns);
            var cs := if constants.Some? && |constants.value.keys| > 0 then constants else None;
            var items := TableItems(cols, cs, quote);
            var r := t.ToSql(columns, forceSql, constants, quote);
            && (r.Ok? <==> items.Ok?)
            && (r.Ok? ==> |items.value| > 0 && r.value == SelectHead(items.value) + t.quotedTableName)
  {
    var cols := DefaultColumns(t.terms, columns);
    var cs := if constants.Some? && |constants.value.keys| > 0 then constants else None;
    TableItemsContent(cols, cs, quote);
    var items := TableItems(cols, cs, quote);
    if items.Ok? {
      assert WithPlaceholder(items.value, quote) == Ok(items.value);
    }
  }

  /** A single-input step: a `SELECT` over its input's SQL. */
  class NearSqlUnaryStep {
    var terms: Terms
    const quotedQueryName: string
    const subSql: string
    const suffix: Option<string>
    const previousStepSummary: StepSummary
    const tempTables: set<string>

    constructor(terms: Terms, quotedQueryName: string, subSql: string, suffix: Option<string>,
                previousStepSummary: StepSummary, tempTables: set<string>)
      requires Valid(terms)
      ensures this.terms == terms && this.quotedQueryName == quotedQueryName && this.subSql == subSql
      ensures this.suffix == suffix && this.previousStepSummary == previousStepSummary && this.tempTables == tempTables
    {
      this.terms := terms;
      this.quotedQueryName := quotedQueryName;
      this.subSql := subSql;
      this.suffix := suffix;
      this.previousStepSummary := previousStepSummary;
      this.tempTables := tempTables;
    }

    function Summary(): (s: StepSummary)
      ensures !s.isTable && s.quotedQueryName == quotedQueryName
    {
      StepSummaryOf(quotedQueryName)
    }

    /** `to_sql`: the step's own terms take the constants in, then the SQL is
        rendered; `force_sql` is accepted and ignored. */
    method ToSql(columns: Option<seq<string>>, forceSql: bool, constants: Option<Dict<string>>, quote: Quote)
      returns (r: Result<string, SqlError>)
      requires Valid(terms) && (constants.Some? ==> Valid(constants.value))
      modifies this
      ensures terms == MergeConstants(old(terms), constants)
      ensures r == UnarySql(old(terms), columns, constants, quote, subSql, suffix, previousStepSummary)
    {
      var cols := DefaultColumns(terms, columns);
      terms := MergeConstants(terms, constants);
      var items :- SelectTerms(terms.vals, cols, quote);
      var sql: string;
      if previousStepSummary.isTable {
        sql := SelectHead(items) + subSql;
      } else {
        sql := SelectHead(items) + "( " + subSql + " ) " + previousStepSummary.quotedQueryName;
      }
      if suffix.Some? && |suffix.value| > 0 {
        assert sql + " " + suffix.value == sql + SuffixText(suffix);
        sql := sql + " " + suffix.value;
      } else {
        assert sql == sql + SuffixText(suffix);
      }
      r := Ok(sql);
    }
  }

  /** A two-input step: its inputs joined by `joiner`. */
  class NearSqlBinaryStep {
    var terms: Terms
    const quotedQueryName: string
    const subSql1: string
    const previousStepSummary1: StepSummary
    const joiner: string
    const subSql2: string
    const previousStepSummary2: StepSummary
    const suffix: Option<string>
    const tempTables: set<string>

    constructor(terms: Terms, quotedQueryName: string, subSql1: string, previousStepSummary1: StepSummary,
                joiner: string, subSql2: string, previousStepSummary2: StepSummary, suffix: Option<string>,
                tempTables: set<string>)
      requires Valid(terms)
      ensures this.terms == terms && this.quotedQueryName == quotedQueryName
      ensures this.subSql1 == subSql1 && this.previousStepSummary1 == previousStepSummary1 && this.joiner == joiner
      ensures this.subSql2 == subSql2 && this.previousStepSummary2 == previousStepSummary2
      ensures this.suffix == suffix && this.tempTables == tempTables
    {
      this.terms := terms;
      this.quotedQueryName := quotedQueryName;
      this.subSql1 := subSql1;
      this.previousStepSummary1 := previousStepSummary1;
      this.joiner := joiner;
      this.subSql2 := subSql2;
      this.previousStepSummary2 := previousStepSummary2;
      this.suffix := suffix;
      this.tempTables := tempTables;
    }

    function Summary(): (s: StepSummary)
      ensures !s.isTable && s.quotedQueryName == quotedQueryName
    {
      StepSummaryOf(quotedQueryName)
    }

    method ToSql(columns: Option<seq<string>>, forceSql: bool, constants: Option<Dict<string>>, quote: Quote)
      returns (r: Result<string, SqlError>)
      requires Valid(terms) && (constants.Some? ==> Valid(constants.value))
      modifies this
      ensures terms == MergeConstants(old(terms), constants)
      ensures r == BinarySql(old(terms), columns, constants, quote, subSql1, previousStepSummary1, joiner,
                             subSql2, previousStepSummary2, suffix)
    {
      var cols := DefaultColumns(terms, columns);
      terms := MergeConstants(terms, constants);
      var items :- SelectTerms(terms.vals, cols, quote);
      var sql := SelectHead(items);
      sql := sql + SideSql(subSql1, previousStepSummary1);
      sql := sql + " " + joiner + " ";
      sql := sql + " " + SideSql(subSql2, previousStepSummary2);
      if suffix.Some? && |suffix.value| > 0 {
        assert sql + " " + suffix.value == sql + SuffixText(suffix);
        sql := sql + " " + suffix.value;
      } else {
        assert sql == sql + SuffixText(suffix);
      }
      r := Ok(sql);
    }
  }

  /** A `UNION ALL` of two inputs. */
  class NearSqlUStep {
    var terms: Terms
    const quotedQueryName: string
    const subSql1: string
    const previousStepSummary1: StepSummary
    const subSql2: string
    const previousStepSummary2: StepSummary
    const tempTables: set<string>

    constructor(terms: Terms, quotedQueryName: string, subSql1: string, previousStepSummary1: StepSummary,
                subSql2: string, previousStepSummary2: StepSummary, tempTables: set<string>)
      requires Valid(terms)
      ensures this.terms == terms && this.quotedQueryName == quotedQueryName
      ensures this.subSql1 == subSql1 && this.previousStepSummary1 == previousStepSummary1
      ensures this.subSql2 == subSql2 && this.previousStepSummary2 == previousStepSummary2
      ensures this.tempTables == tempTables
    {
      this.terms := terms;
      this.quotedQueryName := quotedQueryName;
      this.subSql1 := subSql1;
      this.previousStepSummary1 := previousStepSummary1;
      this.subSql2 := subSql2;
      this.previousStepSummary2 := previousStepSummary2;
      this.tempTables := tempTables;
    }

    function Summary(): (s: StepSummary)
      ensures !s.isTable && s.quotedQueryName == quotedQueryName
    {
      StepSummaryOf(quotedQueryName)
    }

    method ToSql(columns: Option<seq<string>>, forceSql: bool, constants: Option<Dict<string>>, quote: Quote)
      returns (r: Result<string, SqlError>)
      requires Valid(terms) && (constants.Some? ==> Valid(constants.value))
      modifies this
      ensures terms == MergeConstants(old(terms), constants)
      ensures r == UnionSql(old(terms), columns, constants, quote, subSql1, previousStepSummary1,
                            subSql2, previousStepSummary2)
    {
      var cols := DefaultColumns(terms, columns);
      terms := MergeConstants(terms, constants);
      var items :- SelectTerms(terms.vals, cols, quote);
      var sql := "SELECT " + Join(", ", items) + " FROM ( ";
      sql := sql + SideSql(subSql1, previousStepSummary1);
      sql := sql + " UNION ALL ";
      sql := sql + " " + SideSql(subSql2, previousStepSummary2);
      sql := sql + " )";
      r := Ok(sql);
    }
  }

  /** A `SELECT` over a query given as text. */
  class NearSqlQ {
    var terms: Terms
    const quotedQueryName: string
    const query: string
    const prevQuotedQueryName: string
    const tempTables: set<string>

    constructor(quotedQueryName: string, query: string, terms: Terms, prevQuotedQueryName: string,
                tempTables: set<string>)
      requires Valid(terms)
      ensures this.terms == terms && this.quotedQueryName == quotedQueryName && this.query == query
      ensures this.prevQuotedQueryName == prevQuotedQueryName && this.tempTables == tempTables
    {
      this.terms := terms;
      this.quotedQueryName := quotedQueryName;
      this.query := query;
      this.prevQuotedQueryName := prevQuotedQueryName;
      this.tempTables := tempTables;
    }

    function Summary(): (s: StepSummary)
      ensures !s.isTable && s.quotedQueryName == quotedQueryName
    {
      StepSummaryOf(quotedQueryName)
    }

    method ToSql(columns: Option<seq<string>>, forceSql: bool, constants: Option<Dict<string>>, quote: Quote)
      returns (r: Result<string, SqlError>)
      requires Valid(terms) && (constants.Some? ==> Valid(constants.value))
      modifies this
      ensures terms == MergeConstants(old(terms), constants)
      ensures r == QuerySql(old(terms), columns, constants, quote, query, prevQuotedQueryName)
    {
      var cols := DefaultColumns(terms, columns);
      terms := MergeConstants(terms, constants);
      var items :- SelectTerms(terms.vals, cols, quote);
      r := Ok("SELECT " + Join(", ", items) + " FROM ( " + query + " ) " + prevQuotedQueryName);
    }
  }
}
