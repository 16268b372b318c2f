/** The Spark SQL dialect's identifier quoting (`data_algebra/SparkSQL.py`):
    identifiers are lower-cased and wrapped in back-ticks, and an identifier that
    already holds a back-tick is refused. */
module SparkSql {
  import opened Wrappers
  import opened Text
  import opened NearSql

  /** The quotes the dialect is built with. */
  const IdentifierQuote: char := '`'
  const StringQuote: char := '"'

  /** `quote_identifier`: a type error for anything but a string, a value error
      for a string holding the identifier quote, else the lower-cased name in quotes. */
  function QuoteIdentifier(identifier: Value): (r: Result<string, SqlError>)
    ensures r.Ok? <==> identifier.Str? && IdentifierQuote !in identifier.s
    ensures r == Err(TypeError) <==> !identifier.Str?
    ensures r == Err(ValueError) <==> identifier.Str? && IdentifierQuote in identifier.s
  {
    match identifier
    case Str(s) =>
      HasSubstringChar(s, IdentifierQuote);
      if HasSubstring(s, [IdentifierQuote]) then Err(ValueError)
      else Ok([IdentifierQuote] + Lower(s) + [IdentifierQuote])
    case _ => Err(TypeError)
  }

  /** The dialect's quoting as the function the SQL fragments are rendered with. */
  function SparkQuote(identifier: string): Result<string, SqlError>
  {
    QuoteIdentifier(Str(identifier))
  }

  lemma LowerCharKeepsQuote(c: char)
    ensures LowerChar(c) == IdentifierQuote <==> c == IdentifierQuote
  {
  }

  lemma LowerNoQuote(s: string)
    ensures IdentifierQuote in Lower(s) <==> IdentifierQuote in s
  {
    if IdentifierQuote in Lower(s) {
      var i :| 0 <= i < |s| && Lower(s)[i] == IdentifierQuote;
      LowerCharKeepsQuote(s[i]);
    }
    if IdentifierQuote in s {
      var i :| 0 <= i < |s| && s[i] == IdentifierQuote;
      assert Lower(s)[i] == IdentifierQuote;
    }
  }

  /** A quoted identifier is the lower-cased name between two back-ticks, and
      those two are the only back-ticks in it: the name cannot break out of its quotes. */
  lemma QuotedShape(s: string)
    requires SparkQuote(s).Ok?
    ensures var q := SparkQuote(s).value;
            && |q| == |s| + 2
            && q[0] == IdentifierQuote && q[|q| - 1] == IdentifierQuote
            && q[1..|q| - 1] == Lower(s)
            && Count(IdentifierQuote, q) == 2
  {
    var body := Lower(s);
    var q := [IdentifierQuote] + body + [IdentifierQuote];
    assert q[1..|q| - 1] == body;
    LowerNoQuote(s);
    CountAbsent(IdentifierQuote, body);
    CountConcat(IdentifierQuote, [IdentifierQuote], body);
    CountConcat(IdentifierQuote, [IdentifierQuote] + body, [IdentifierQuote]);
  }

  lemma {:induction false} LowerIdempotent(s: string)
    ensures Lower(Lower(s)) == Lower(s)
  {
    forall i | 0 <= i < |s| ensures Lower(Lower(s))[i] == Lower(s)[i] {
      assert LowerChar(LowerChar(s[i])) == LowerChar(s[i]);
    }
  }

  /** Quoting already lower-cased text gives the same identifier: quoting is
      insensitive to the case of ASCII letters. */
  lemma QuoteIgnoresCase(s: string)
    ensures SparkQuote(Lower(s)) == SparkQuote(s)
  {
    LowerNoQuote(s);
    LowerIdempotent(s);
  }

  /** Two accepted names quote to the same identifier exactly when they agree
      once lower-cased. */
  lemma QuoteCollision(a: string, b: string)
    requires SparkQuote(a).Ok? && SparkQuote(b).Ok?
    ensures SparkQuote(a) == SparkQuote(b) <==> Lower(a) == Lower(b)
  {
    QuotedShape(a);
    QuotedShape(b);
  }

  /** Text with no upper-case ASCII letter and no identifier quote quotes to
      itself between back-ticks. */
  lemma QuotePlainLower(s: string)
    requires forall c :: c in s ==> !('A' <= c <= 'Z') && c != IdentifierQuote
    ensures SparkQuote(s) == Ok([IdentifierQuote] + s + [IdentifierQuote])
  {
    forall i | 0 <= i < |s| ensures Lower(s)[i] == s[i] {
      assert s[i] in s;
    }
    assert Lower(s) == s;
    assert IdentifierQuote !in s;
    HasSubstringChar(s, IdentifierQuote);
  }

  /** The placeholder column of an empty select list is such a name, so Spark
      quotes it unchanged between back-ticks. */
  lemma PlaceholderIsPlain()
    ensures forall c :: c in PlaceholderColumn ==> !('A' <= c <= 'Z') && c != IdentifierQuote
  {
    assert forall c :: c in PlaceholderColumn ==> 'a' <= c <= 'z' || c == '_';
  }

  /** With Spark quoting, a select list over names free of back-ticks renders
      exactly when every name has a term; a name holding a back-tick is refused
      with a value error. */
  lemma SparkSelectList(vals: map<string, Option<string>>, columns: seq<string>)
    ensures (forall i :: 0 <= i < |columns| ==> IdentifierQuote !in columns[i]) ==>
              (TermStrs(vals, columns, SparkQuote).Ok? <==> Elems(columns) <= vals.Keys)
    ensures forall i :: 0 <= i < |columns| && IdentifierQuote in columns[i] ==>
              TermStrs(vals, columns, SparkQuote).Err?
  {
    if forall i :: 0 <= i < |columns| ==> IdentifierQuote !in columns[i] {
      TermStrsMissingColumn(vals, columns, SparkQuote);
    }
  }
}
