/** Program 4, `extract_legal_references`: the acts, rules, laws,
    procedures, penal codes and constitutional articles a judgment cites,
    each deduplicated and sorted.  The six regex searches are inputs (their
    `findall` results); the set-and-sort, the law threshold and filter and
    the output cells are modelled. */
module LegalReferences {
  import opened Text
  import opened Records

  // ---------------------------------------------------------------------
  // `sorted(set(xs))` on strings
  // ---------------------------------------------------------------------

  /** Python's `<` on strings: lexicographic by code point, a proper prefix
      first. */
  predicate Less(a: string, b: string)
    decreases |a|
  {
    if a == [] then b != []
    else b != [] && (a[0] < b[0] || (a[0] == b[0] && Less(a[1..], b[1..])))
  }

  lemma {:induction false} LessIrreflexive(a: string)
    ensures !Less(a, a)
    decreases |a|
  {
    if a != [] {
      LessIrreflexive(a[1..]);
    }
  }

  lemma {:induction false} LessTransitive(a: string, b: string, c: string)
    requires Less(a, b) && Less(b, c)
    ensures Less(a, c)
    decreases |a|
  {
    if a != [] && a[0] == b[0] && b[0] == c[0] {
      LessTransitive(a[1..], b[1..], c[1..]);
    }
  }

  lemma {:induction false} LessTotal(a: string, b: string)
    ensures a == b || Less(a, b) || Less(b, a)
    decreases |a|
  {
    if a != [] && b != [] && a[0] == b[0] {
      LessTotal(a[1..], b[1..]);
      assert a == [a[0]] + a[1..] && b == [b[0]] + b[1..];
    }
  }

  /** Strictly ascending, hence without repeats. */
  predicate Ascending(s: seq<string>) {
    forall i, j :: 0 <= i < j < |s| ==> Less(s[i], s[j])
  }

  /** `x` put into its place in an ascending list. */
  function Insert(x: string, s: seq<string>): (r: seq<string>)
    requires Ascending(s)
    ensures Ascending(r)
    ensures forall y :: y in r <==> y == x || y in s
  {
    if s == [] then [x]
    else if x == s[0] then s
    else if Less(x, s[0]) then
      assert forall j :: 0 < j < |s| ==> Less(x, s[j]) by {
        forall j | 0 < j < |s| ensures Less(x, s[j]) { LessTransitive(x, s[0], s[j]); }
      }
      [x] + s
    else
      LessTotal(x, s[0]);
      var r := Insert(x, s[1..]);
      assert forall j :: 0 <= j < |r| ==> Less(s[0], r[j]) by {
        forall j | 0 <= j < |r| ensures Less(s[0], r[j]) {
          assert r[j] in r;
          if r[j] != x {
            var k :| 0 <= k < |s[1..]| && s[1..][k] == r[j];
            assert s[k + 1] == r[j];
          }
        }
      }
      [s[0]] + r
  }

  /** `sorted(set(xs))`. */
  function SortedSet(xs: seq<string>): (r: seq<string>)
    ensures Ascending(r)
    ensures forall y :: y in r <==> y in xs
  {
    if xs == [] then [] else Insert(xs[0], SortedSet(xs[1..]))
  }

  /** Two ascending lists with the same elements are the same list. */
  lemma {:induction false} AscendingUnique(s: seq<string>, t: seq<string>)
    requires Ascending(s) && Ascending(t)
    requires forall y :: y in s <==> y in t
    ensures s == t
  {
    assert s != [] ==> s[0] in s;
    assert t != [] ==> t[0] in t;
    if s != [] && t != [] {
      if s[0] != t[0] {
        LessTotal(s[0], t[0]);
        assert s[0] in s && t[0] in t;
        if Less(s[0], t[0]) {
          var k :| 0 <= k < |t| && t[k] == s[0];
          assert k > 0;
          LessIrreflexive(s[0]);
          LessTransitive(s[0], t[0], s[0]);
        } else {
          assert false;
        }
      }
      assert s == [s[0]] + s[1..] && t == [t[0]] + t[1..];
      forall y ensures y in s[1..] <==> y in t[1..] {
        if y in s[1..] {
          var k :| 0 <= k < |s[1..]| && s[1..][k] == y;
          assert Less(s[0], y) by { assert s[k + 1] == y; }
          LessIrreflexive(y);
          assert y in t && y != t[0];
        }
        if y in t[1..] {
          var k :| 0 <= k < |t[1..]| && t[1..][k] == y;
          assert Less(t[0], y) by { assert t[k + 1] == y; }
          LessIrreflexive(y);
          assert y in s && y != s[0];
        }
      }
      AscendingUnique(s[1..], t[1..]);
      assert s == [s[0]] + s[1..] && t == [t[0]] + t[1..];
    }
  }

  /** The result depends only on which strings were found: not on their
      order, nor on how often each was found. */
  lemma SortedSetCanonical(xs: seq<string>, ys: seq<string>)
    requires forall y :: y in xs <==> y in ys
    ensures SortedSet(xs) == SortedSet(ys)
  {
    AscendingUnique(SortedSet(xs), SortedSet(ys));
  }

  // ---------------------------------------------------------------------
  // `extract_legal_references`
  // ---------------------------------------------------------------------

  const ErrorKey := "Error (Program 4)"
  const NotFound := "Not found"

  /** The `findall` results of the six patterns, in text order. */
  datatype Matches = Matches(
    acts: seq<string>, rules: seq<string>, laws: seq<string>,
    procedures: seq<string>, penalCodes: seq<string>, constitutions: seq<string>)

  /** The generic uses of "law" the law list leaves out. */
  const UnwantedLaws: set<string> :=
    {"law", "that law", "as law", "a law", "new law", "case law", "no law", "other law"}

  function Wanted(law: string): bool {
    Lower(law) !in UnwantedLaws
  }

  /** The five lists other than the laws, in `sorted(set(...))` form. */
  function OtherCount(m: Matches): nat {
    |SortedSet(m.acts)| + |SortedSet(m.rules)| + |SortedSet(m.procedures)| +
    |SortedSet(m.penalCodes)| + |SortedSet(m.constitutions)|
  }

  /** The law list: ["Not found"] when the other lists hold five entries or
      more; otherwise the wanted laws, deduplicated and sorted, or
      ["Not found"] when none is left. */
  function Laws(m: Matches): seq<string> {
    if OtherCount(m) >= 5 then [NotFound]
    else
      var laws := SortedSet(Filter(m.laws, Wanted));
      if laws != [] then laws else [NotFound]
  }

  /** A list's cell: the entries joined with ", ", or "Not found". */
  function Cell(xs: seq<string>): Value {
    Str(if xs != [] then Join(xs, ", ") else NotFound)
  }

  const ReferenceKeys: seq<string> := [
    "Acts (Program 4)", "Rules (Program 4)", "Laws (Program 4)",
    "Procedures (Program 4)", "Penal Codes (Program 4)", "Constitutions (Program 4)"]

  /** `extract_legal_references` on the text of the PDF and the matches. A
      failure is the message of an exception raised on the way. */
  function ExtractLegalReferences(text: Result<string>, m: Matches): Record {
    if text.Failure? then [(ErrorKey, Str(text.error))]
    else if text.value == [] then [(ErrorKey, Str("No text extracted from PDF"))]
    else
      [(ReferenceKeys[0], Cell(SortedSet(m.acts))), (ReferenceKeys[1], Cell(SortedSet(m.rules))),
       (ReferenceKeys[2], Cell(Laws(m))), (ReferenceKeys[3], Cell(SortedSet(m.procedures))),
       (ReferenceKeys[4], Cell(SortedSet(m.penalCodes))), (ReferenceKeys[5], Cell(SortedSet(m.constitutions)))]
  }

  /** With five or more other references the laws are not searched; below
      that, the law list holds exactly the distinct wanted laws found, in
      ascending order, or "Not found" when there is none. */
  lemma LawsCases(m: Matches)
    ensures OtherCount(m) >= 5 ==> Laws(m) == [NotFound]
    ensures OtherCount(m) < 5 && (forall l :: l in m.laws ==> !Wanted(l)) ==> Laws(m) == [NotFound]
    ensures OtherCount(m) < 5 && (exists l :: l in m.laws && Wanted(l)) ==>
      Ascending(Laws(m)) && forall l :: l in Laws(m) <==> l in m.laws && Wanted(l)
  {
    if OtherCount(m) < 5 {
      var laws := SortedSet(Filter(m.laws, Wanted));
      assert laws != [] ==> laws[0] in laws;
      if exists l :: l in m.laws && Wanted(l) {
        var l :| l in m.laws && Wanted(l);
        assert l in laws;
        assert Laws(m) == laws;
      }
    }
  }

  /** The record has the six keys in order, or is the single error entry;
      an empty text gives the error, never a list of references. */
  lemma ReferencesShape(text: Result<string>, m: Matches)
    ensures text.Success? && text.value != [] ==> Keys(ExtractLegalReferences(text, m)) == ReferenceKeys
    ensures text.Success? && text.value != [] ==> WellFormed(ExtractLegalReferences(text, m))
    ensures text.Failure? ==> ExtractLegalReferences(text, m) == [(ErrorKey, Str(text.error))]
    ensures text == Success([]) ==> ExtractLegalReferences(text, m) == [(ErrorKey, Str("No text extracted from PDF"))]
  {
    if text.Success? && text.value != [] {
      var r := ExtractLegalReferences(text, m);
      assert forall i :: 0 <= i < 6 ==> Keys(r)[i] == ReferenceKeys[i];
      ReferenceKeysDistinct();
    }
  }

  lemma ReferenceKeysDistinct()
    ensures Distinct(ReferenceKeys)
  {
  }

  /** A cell is "Not found" for an empty list and the entries joined with
      ", " otherwise. */
  lemma CellCases(xs: seq<string>)
    ensures xs == [] ==> Cell(xs) == Str(NotFound)
    ensures |xs| == 1 ==> Cell(xs) == Str(xs[0])
    ensures |xs| > 1 ==> Cell(xs) == Str(xs[0] + ", " + Join(xs[1..], ", "))
  {
  }

  /** The record does not depend on the order or repetition of the
      matches. */
  lemma ReferencesCanonical(text: Result<string>, m: Matches, n: Matches)
    requires forall y :: y in m.acts <==> y in n.acts
    requires forall y :: y in m.rules <==> y in n.rules
    requires forall y :: y in m.laws <==> y in n.laws
    requires forall y :: y in m.procedures <==> y in n.procedures
    requires forall y :: y in m.penalCodes <==> y in n.penalCodes
    requires forall y :: y in m.constitutions <==> y in n.constitutions
    ensures ExtractLegalReferences(text, m) == ExtractLegalReferences(text, n)
  {
    SortedSetCanonical(m.acts, n.acts);
    SortedSetCanonical(m.rules, n.rules);
    SortedSetCanonical(m.procedures, n.procedures);
    SortedSetCanonical(m.penalCodes, n.penalCodes);
    SortedSetCanonical(m.constitutions, n.constitutions);
    SortedSetCanonical(Filter(m.laws, Wanted), Filter(n.laws, Wanted));
  }
}
