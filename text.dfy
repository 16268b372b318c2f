/** Lists of names and strings: the operations the source performs with
    Python's built-in `set`, `list`, `str.join`, `str.lower` and `<` on `str`. */
module Text {

  /** No name occurs twice. */
  ghost predicate Distinct(s: seq<string>)
  {
    forall i, j :: 0 <= i < j < |s| ==> s[i] != s[j]
  }

  /** Python's `set(s)`. */
  function Elems(s: seq<string>): set<string>
  {
    set x | x in s
  }

  lemma {:induction false} ElemsBound(s: seq<string>)
    ensures |Elems(s)| <= |s|
  {
    if |s| > 0 {
      ElemsBound(s[1..]);
      assert Elems(s) == {s[0]} + Elems(s[1..]);
    }
  }

  /** The test `len(s) != len(set(s))` used by the source is exactly "has a duplicate". */
  lemma {:induction false} DistinctIffCardinality(s: seq<string>)
    ensures Distinct(s) <==> |Elems(s)| == |s|
  {
    if |s| > 0 {
      var rest := s[1..];
      DistinctIffCardinality(rest);
      assert Elems(s) == {s[0]} + Elems(rest);
      if s[0] in rest {
        ElemsBound(rest);
        assert Elems(s) == Elems(rest);
        var k :| 0 <= k < |rest| && rest[k] == s[0];
        assert s[0] == s[k + 1];
      } else {
        assert |Elems(s)| == 1 + |Elems(rest)|;
        if Distinct(rest) {
          forall i, j | 0 <= i < j < |s| ensures s[i] != s[j] {
            if i > 0 { assert s[i] == rest[i - 1] && s[j] == rest[j - 1]; }
            else { assert s[j] == rest[j - 1]; }
          }
        } else {
          var i, j :| 0 <= i < j < |rest| && rest[i] == rest[j];
          assert s[i + 1] == s[j + 1];
        }
      }
    }
  }

  lemma DistinctAppend(s: seq<string>, x: string)
    requires Distinct(s) && x !in s
    ensures Distinct(s + [x])
  {
  }

  lemma DistinctConcat(a: seq<string>, b: seq<string>)
    requires Distinct(a) && Distinct(b) && Elems(a) !! Elems(b)
    ensures Distinct(a + b)
  {
    forall i, j | 0 <= i < j < |a + b| ensures (a + b)[i] != (a + b)[j] {
      if j >= |a| && i < |a| {
        assert (a + b)[i] in Elems(a) && (a + b)[j] in Elems(b);
      }
    }
  }

  /** The names of `s` that are not in `known`, in the order of `s`: what the
      loops "for c in s: if c not in known: out.append(c)" append. */
  function Absent(s: seq<string>, known: set<string>): (r: seq<string>)
  {
    if |s| == 0 then []
    else Absent(s[..|s| - 1], known) + (if s[|s| - 1] in known then [] else [s[|s| - 1]])
  }

  /** What `Absent` keeps: exactly the names of `s` outside `known`, each once when `s` has no repeats. */
  lemma {:induction false} AbsentElems(s: seq<string>, known: set<string>)
    ensures Elems(Absent(s, known)) == Elems(s) - known
    ensures Distinct(s) ==> Distinct(Absent(s, known))
    ensures |Absent(s, known)| <= |s|
  {
    if |s| > 0 {
      var init, last := s[..|s| - 1], s[|s| - 1];
      AbsentElems(init, known);
      assert s == init + [last];
      assert Elems(s) == Elems(init) + {last};
      assert Elems(Absent(s, known)) == Elems(Absent(init, known)) + (if last in known then {} else {last});
      if Distinct(s) {
        assert Distinct(init);
        if last !in known {
          assert last !in init;
          assert last !in Elems(Absent(init, known));
          DistinctAppend(Absent(init, known), last);
        }
      }
    }
  }

  lemma {:induction false} AbsentOfKnown(s: seq<string>, known: set<string>)
    requires Elems(s) <= known
    ensures Absent(s, known) == []
  {
    if |s| > 0 {
      assert Elems(s[..|s| - 1]) <= Elems(s);
      AbsentOfKnown(s[..|s| - 1], known);
    }
  }

  /** Python's `sep.join(parts)`. */
  function Join(sep: string, parts: seq<string>): string
  {
    if |parts| == 0 then ""
    else if |parts| == 1 then parts[0]
    else parts[0] + sep + Join(sep, parts[1..])
  }

  /** Python's `a < b` on `str`: lexicographic by code point, a proper prefix first. */
  predicate StrLess(a: string, b: string)
  {
    |b| > 0 && (|a| == 0 || a[0] < b[0] || (a[0] == b[0] && StrLess(a[1..], b[1..])))
  }

  lemma {:induction false} StrLessIrreflexive(a: string)
    ensures !StrLess(a, a)
  {
    if |a| > 0 { StrLessIrreflexive(a[1..]); }
  }

  lemma {:induction false} StrLessTransitive(a: string, b: string, c: string)
    requires StrLess(a, b) && StrLess(b, c)
    ensures StrLess(a, c)
  {
    if |a| > 0 && a[0] == b[0] && b[0] == c[0] {
      StrLessTransitive(a[1..], b[1..], c[1..]);
    }
  }

  lemma {:induction false} StrLessTotal(a: string, b: string)
    requires a != b
    ensures StrLess(a, b) || StrLess(b, a)
  {
    if |a| > 0 && |b| > 0 && a[0] == b[0] {
      assert a == [a[0]] + a[1..] && b == [b[0]] + b[1..];
      StrLessTotal(a[1..], b[1..]);
    }
  }

  lemma StrLessAsymmetric(a: string, b: string)
    requires StrLess(a, b)
    ensures !StrLess(b, a)
  {
    if StrLess(b, a) {
      StrLessTransitive(a, b, a);
      StrLessIrreflexive(a);
    }
  }

  ghost predicate StrictlySorted(s: seq<string>)
  {
    forall i, j :: 0 <= i < j < |s| ==> StrLess(s[i], s[j])
  }

  lemma BelowSortedHead(x: string, s: seq<string>)
    requires StrictlySorted(s) && |s| > 0 && StrLess(x, s[0])
    ensures forall y :: y in s ==> StrLess(x, y)
  {
    forall y | y in s ensures StrLess(x, y) {
      var k :| 0 <= k < |s| && s[k] == y;
      if k > 0 { StrLessTransitive(x, s[0], y); }
    }
  }

  /** One step of insertion sort: place `x` into a sorted list without it. */
  function InsertSorted(x: string, s: seq<string>): (r: seq<string>)
    requires StrictlySorted(s) && x !in s
    ensures StrictlySorted(r) && Elems(r) == Elems(s) + {x} && |r| == |s| + 1
  {
    if |s| == 0 then [x]
    else if StrLess(x, s[0]) then
      BelowSortedHead(x, s);
      [x] + s
    else
      StrLessTotal(x, s[0]);
      var tail := InsertSorted(x, s[1..]);
      assert forall y :: y in tail ==> StrLess(s[0], y) by {
        forall y | y in tail ensures StrLess(s[0], y) {
          assert y in Elems(tail);
          if y != x {
            var k :| 0 <= k < |s| - 1 && s[1..][k] == y;
            assert s[k + 1] == y;
          }
        }
      }
      assert Elems(s) == {s[0]} + Elems(s[1..]);
      var r := [s[0]] + tail;
      assert forall i, j :: 0 <= i < j < |r| ==> StrLess(r[i], r[j]) by {
        forall i, j | 0 <= i < j < |r| ensures StrLess(r[i], r[j]) {
          if i == 0 { assert r[j] == tail[j - 1] && r[j] in tail; }
          else { assert r[i] == tail[i - 1] && r[j] == tail[j - 1]; }
        }
      }
      r
  }

  /** Python's `keys.sort()` on a list of distinct strings: the same names in increasing order. */
  function SortStrings(s: seq<string>): (r: seq<string>)
    requires Distinct(s)
    ensures StrictlySorted(r) && Elems(r) == Elems(s) && |r| == |s|
  {
    if |s| == 0 then []
    else
      var rest := SortStrings(s[1..]);
      assert s[0] !in Elems(s[1..]);
      assert Elems(s) == {s[0]} + Elems(s[1..]);
      InsertSorted(s[0], rest)
  }

  /** A set of strings has exactly one strictly increasing arrangement. */
  lemma {:induction false} SortedUnique(a: seq<string>, b: seq<string>)
    requires StrictlySorted(a) && StrictlySorted(b) && Elems(a) == Elems(b)
    ensures a == b
  {
    assert |a| > 0 ==> a[0] in Elems(a);
    assert |b| > 0 ==> b[0] in Elems(b);
    if |a| == 0 || |b| == 0 {
    } else {
      if a[0] != b[0] {
        assert a[0] in Elems(b) && b[0] in Elems(a);
        var i :| 0 <= i < |b| && b[i] == a[0];
        var j :| 0 <= j < |a| && a[j] == b[0];
        assert StrLess(b[0], a[0]);
        assert StrLess(a[0], b[0]);
        StrLessAsymmetric(a[0], b[0]);
      }
      var a', b' := a[1..], b[1..];
      assert Elems(a) == {a[0]} + Elems(a');
      assert Elems(b) == {b[0]} + Elems(b');
      assert a[0] !in Elems(a') by {
        if a[0] in Elems(a') {
          var k :| 0 <= k < |a'| && a'[k] == a[0];
          assert StrLess(a[0], a[k + 1]);
          StrLessIrreflexive(a[0]);
        }
      }
      assert b[0] !in Elems(b') by {
        if b[0] in Elems(b') {
          var k :| 0 <= k < |b'| && b'[k] == b[0];
          assert StrLess(b[0], b[k + 1]);
          StrLessIrreflexive(b[0]);
        }
      }
      assert Elems(a') == Elems(a) - {a[0]};
      assert Elems(b') == Elems(b) - {b[0]};
      SortedUnique(a', b');
      assert a == [a[0]] + a' && b == [b[0]] + b';
    }
  }

  /** Python's `str.lower()` on ASCII letters; every other character is kept. */
  function LowerChar(c: char): char
  {
    if 'A' <= c <= 'Z' then (c as int + 32) as char else c
  }

  function Lower(s: string): (r: string)
    ensures |r| == |s|
    ensures forall i :: 0 <= i < |s| ==> r[i] == LowerChar(s[i])
  {
    if |s| == 0 then "" else [LowerChar(s[0])] + Lower(s[1..])
  }

  /** Python's `sub in s` for strings: a substring test. */
  predicate HasSubstring(s: string, sub: string)
  {
    |sub| <= |s| && (s[..|sub|] == sub || (|s| > 0 && HasSubstring(s[1..], sub)))
  }

  /** For a one-character needle the substring test is plain membership. */
  lemma {:induction false} HasSubstringChar(s: string, c: char)
    ensures HasSubstring(s, [c]) <==> c in s
  {
    if |s| > 0 {
      HasSubstringChar(s[1..], c);
      assert s == [s[0]] + s[1..];
    }
  }

  /** How many times `c` occurs in `s`. */
  function Count(c: char, s: string): nat
  {
    if |s| == 0 then 0 else (if s[0] == c then 1 else 0) + Count(c, s[1..])
  }

  lemma {:induction false} CountAbsent(c: char, s: string)
    requires c !in s
    ensures Count(c, s) == 0
  {
    if |s| > 0 { CountAbsent(c, s[1..]); }
  }

  lemma {:induction false} CountConcat(c: char, a: string, b: string)
    ensures Count(c, a + b) == Count(c, a) + Count(c, b)
  {
    if |a| > 0 {
      assert (a + b)[0] == a[0] && (a + b)[1..] == a[1..] + b;
      CountConcat(c, a[1..], b);
      assert Count(c, a + b) == (if a[0] == c then 1 else 0) + Count(c, a[1..] + b);
    } else {
      assert a + b == b;
    }
  }
}
