/** Program 1, `extract_legal_details`: case numbers, headnotes, document
    type and judge names of one judgment, rendered as one record.  The regex
    searches and the page texts are inputs: the case-number matches, the
    headnote group pairs, the lines of the type text and the judge group. */
module LegalDetails {
  import opened Text
  import opened Records

  const NotFound := "Not found"
  /** Excel's cell limit, at which the headnotes are split. */
  const MaxCellLength: nat := 32767
  const DocTypeMarker := "judgment / order of the supreme court"
  const JudgeSuffixes: seq<string> := ["J", "JJ", "CJI"]
  const ErrorKey := "Error (Program 1)"

  type PageCount = n: nat | n >= 1 witness 1

  /** What the PDF libraries and the regex searches yield for one document. */
  datatype Document = Document(
    pageCount: PageCount,
    // group 1 of every case-number match on the first page, in order
    caseNoMatches: seq<string>,
    // the title and the date, whose regex and strptime chains are not modelled
    caseTitle: string, judgmentDate: string, month: string, year: string,
    // (heading, body) groups of the headnote and issue patterns, in order
    headnoteMatches: seq<(string, string)>,
    // the lines of the first two pages' text
    typeLines: seq<string>,
    // group 1 of the judge pattern on the first three pages, if it matched
    judgeGroup: Option<string>)

  // ---------------------------------------------------------------------
  // Case numbers
  // ---------------------------------------------------------------------

  /** One string occurs inside the other. */
  predicate Related(a: string, b: string) {
    Contains(b, a) || Contains(a, b)
  }

  predicate UnrelatedToAll(x: string, kept: seq<string>, rel: (string, string) -> bool) {
    forall t :: 0 <= t < |kept| ==> !rel(x, kept[t])
  }

  predicate Covered(x: string, kept: seq<string>, rel: (string, string) -> bool) {
    exists e :: e in kept && rel(x, e)
  }

  /** The candidates kept in order: one is kept when it is in relation `rel`
      with no candidate kept before it. */
  function KeepUnrelated(raw: seq<string>, rel: (string, string) -> bool): seq<string> {
    if raw == [] then []
    else
      var kept := KeepUnrelated(raw[..|raw| - 1], rel);
      var cn := raw[|raw| - 1];
      if UnrelatedToAll(cn, kept, rel) then kept + [cn] else kept
  }

  /** The case numbers kept from the raw matches: a candidate is kept when it
      is neither inside nor around any number kept before it. */
  function KeptCaseNumbers(raw: seq<string>): seq<string> {
    KeepUnrelated(raw, Related)
  }

  method CleanCaseNumbers(raw: seq<string>) returns (kept: seq<string>)
    ensures kept == KeptCaseNumbers(raw)
  {
    kept := [];
    for i := 0 to |raw|
      invariant kept == KeepUnrelated(raw[..i], Related)
    {
      assert raw[..i + 1][..i] == raw[..i];
      var cn := raw[i];
      var novel := true;
      var j := 0;
      while j < |kept|
        invariant 0 <= j <= |kept|
        invariant novel <==> forall t :: 0 <= t < j ==> !Related(cn, kept[t])
      {
        if Contains(kept[j], cn) || Contains(cn, kept[j]) {
          novel := false;
          break;
        }
        j := j + 1;
      }
      if novel {
        kept := kept + [cn];
      }
    }
    assert raw[..|raw|] == raw;
  }

  lemma SelfRelated(x: string)
    ensures Related(x, x)
  {
  }

  /** The kept candidates are a subsequence of the raw ones. */
  lemma {:induction false} KeepIsSubsequence(raw: seq<string>, rel: (string, string) -> bool)
    ensures Subsequence(KeepUnrelated(raw, rel), raw)
  {
    if raw != [] {
      var p := raw[..|raw| - 1];
      KeepIsSubsequence(p, rel);
      var k := KeepUnrelated(p, rel);
      var r := KeepUnrelated(raw, rel);
      if r != k {
        assert r[..|r| - 1] == k;
      }
    }
  }

  predicate PairwiseUnrelated(kept: seq<string>, rel: (string, string) -> bool) {
    forall i, j :: 0 <= i < j < |kept| ==> !rel(kept[i], kept[j])
  }

  /** For a symmetric relation, no two kept candidates are related. */
  lemma {:induction false} KeepPairwiseUnrelated(raw: seq<string>, rel: (string, string) -> bool)
    requires forall a, b :: rel(a, b) ==> rel(b, a)
    ensures PairwiseUnrelated(KeepUnrelated(raw, rel), rel)
  {
    if raw != [] {
      var p := raw[..|raw| - 1];
      var cn := raw[|raw| - 1];
      KeepPairwiseUnrelated(p, rel);
      var k := KeepUnrelated(p, rel);
      var r := KeepUnrelated(raw, rel);
      if r != k {
        assert r == k + [cn];
        forall i, j | 0 <= i < j < |r| ensures !rel(r[i], r[j]) {
          if j == |r| - 1 {
            assert r[i] == k[i] && r[j] == cn;
            assert !rel(cn, k[i]);
          } else {
            assert r[i] == k[i] && r[j] == k[j];
          }
        }
      }
    }
  }

  /** For a reflexive relation, every raw candidate is related to a kept one:
      a candidate is dropped only because of one kept before it. */
  lemma {:induction false} KeepCovers(raw: seq<string>, rel: (string, string) -> bool)
    requires forall x :: rel(x, x)
    ensures forall x :: x in raw ==> Covered(x, KeepUnrelated(raw, rel), rel)
  {
    if raw != [] {
      var p := raw[..|raw| - 1];
      var cn := raw[|raw| - 1];
      KeepCovers(p, rel);
      var k := KeepUnrelated(p, rel);
      var r := KeepUnrelated(raw, rel);
      assert raw == p + [cn];
      assert forall e :: e in k ==> e in r;
      forall x | x in raw ensures Covered(x, r, rel) {
        if x != cn {
          assert x in p;
          var e :| e in k && rel(x, e);
          assert e in r;
        } else if r == k {
          var t :| 0 <= t < |k| && rel(cn, k[t]);
          assert k[t] in r;
        } else {
          assert rel(cn, cn) && r[|r| - 1] == cn;
        }
      }
    }
  }

  /** The first candidate is always kept, first. */
  lemma {:induction false} KeepFirst(raw: seq<string>, rel: (string, string) -> bool)
    requires raw != []
    ensures var kept := KeepUnrelated(raw, rel); kept != [] && kept[0] == raw[0]
  {
    var p := raw[..|raw| - 1];
    if p == [] {
      assert KeepUnrelated(p, rel) == [];
    } else {
      KeepFirst(p, rel);
      assert p[0] == raw[0];
    }
  }

  /** The kept case numbers are a subsequence of the raw ones, no two of
      them occur one inside the other, every raw number was dropped only
      because it is inside or around a kept one, and the first is kept. */
  lemma KeptCaseNumbersFacts(raw: seq<string>)
    ensures Subsequence(KeptCaseNumbers(raw), raw)
    ensures PairwiseUnrelated(KeptCaseNumbers(raw), Related)
    ensures forall x :: x in raw ==> Covered(x, KeptCaseNumbers(raw), Related)
    ensures raw != [] ==> KeptCaseNumbers(raw) != [] && KeptCaseNumbers(raw)[0] == raw[0]
  {
    forall x ensures Related(x, x) { SelfRelated(x); }
    KeepIsSubsequence(raw, Related);
    KeepPairwiseUnrelated(raw, Related);
    KeepCovers(raw, Related);
    if raw != [] {
      KeepFirst(raw, Related);
    }
  }

  // ---------------------------------------------------------------------
  // Headnotes
  // ---------------------------------------------------------------------

  /** A headnote as rendered: "title: content" when both are there, the
      content alone when the title is blank, nothing without content. */
  function HeadnoteEntry(m: (string, string)): (r: Option<string>)
    ensures r.Some? <==> !AllSpace(m.1)
    ensures r.Some? ==> |r.value| > 0
  {
    var title := Strip(m.0);
    var content := Strip(m.1);
    StripEmpty(m.1);
    if title != [] && content != [] then Some(title + ": " + content)
    else if content != [] then Some(content)
    else None
  }

  /** The rendered headnotes in match order. */
  function HeadnoteEntries(ms: seq<(string, string)>): (r: seq<string>)
    ensures |r| <= |ms|
    ensures forall i :: 0 <= i < |r| ==> |r[i]| > 0
  {
    if ms == [] then []
    else
      var e := HeadnoteEntries(ms[..|ms| - 1]);
      match HeadnoteEntry(ms[|ms| - 1])
      case Some(h) => e + [h]
      case None => e
  }

  method CombineHeadnotes(ms: seq<(string, string)>) returns (entries: seq<string>)
    ensures entries == HeadnoteEntries(ms)
  {
    entries := [];
    for i := 0 to |ms|
      invariant entries == HeadnoteEntries(ms[..i])
    {
      assert ms[..i + 1][..i] == ms[..i];
      var title := Strip(ms[i].0);
      var content := Strip(ms[i].1);
      if title != [] && content != [] {
        entries := entries + [title + ": " + content];
      } else if content != [] {
        entries := entries + [content];
      }
    }
    assert ms[..|ms|] == ms;
  }

  /** There is a rendered headnote exactly when some match has a body that is
      not blank. */
  lemma {:induction false} HeadnoteEntriesEmpty(ms: seq<(string, string)>)
    ensures HeadnoteEntries(ms) == [] <==> forall i :: 0 <= i < |ms| ==> AllSpace(ms[i].1)
  {
    if ms != [] {
      var p := ms[..|ms| - 1];
      HeadnoteEntriesEmpty(p);
      assert forall i :: 0 <= i < |p| ==> p[i] == ms[i];
    }
  }

  /** The headnote text and how it was found. */
  function HeadnoteContent(ms: seq<(string, string)>): (r: (string, string))
    ensures r.1 == "None" <==> forall i :: 0 <= i < |ms| ==> AllSpace(ms[i].1)
    ensures r.1 == "None" ==> r.0 == NotFound
    ensures r.1 != "None" ==> r.0 == Join(HeadnoteEntries(ms), " | ") && r.1 == "PDF Plumber Pattern Matching"
  {
    HeadnoteEntriesEmpty(ms);
    JoinEmpty(HeadnoteEntries(ms), " | ");
    var content := if ms != [] then Join(HeadnoteEntries(ms), " | ") else "";
    if content == [] then (NotFound, "None") else (content, "PDF Plumber Pattern Matching")
  }

  /** The headnotes cut at the cell limit: the first part fits, the two
      parts give back the whole, and the second part is empty exactly when
      the whole fits. */
  function SplitCell(content: string): (parts: (string, string))
    ensures |parts.0| <= MaxCellLength
    ensures parts.0 + parts.1 == content
    ensures parts.1 == [] <==> |content| <= MaxCellLength
    ensures |content| > MaxCellLength ==> |parts.0| == MaxCellLength
  {
    if |content| > MaxCellLength then (content[..MaxCellLength], content[MaxCellLength..])
    else (content, "")
  }

  // ---------------------------------------------------------------------
  // Document type
  // ---------------------------------------------------------------------

  predicate IsMarkerLine(line: string) {
    Contains(Lower(line), DocTypeMarker)
  }

  /** Line `k` exists and, stripped and lower-cased, starts with "order". */
  predicate IsOrderLine(lines: seq<string>, k: nat) {
    k < |lines| && StartsWith(Lower(Strip(lines[k])), "order")
  }

  predicate MarkerFollowedByOrder(lines: seq<string>, i: nat) {
    && i < |lines| && IsMarkerLine(lines[i])
    && (forall k :: 0 <= k < i ==> !IsMarkerLine(lines[k]))
    && (IsOrderLine(lines, i + 1) || IsOrderLine(lines, i + 2))
  }

  function FirstMarkerLine(lines: seq<string>, from: nat): (r: Option<nat>)
    requires from <= |lines|
    ensures r.Some? ==> from <= r.value < |lines| && IsMarkerLine(lines[r.value])
    ensures forall k :: from <= k < |lines| && (r.None? || k < r.value) ==> !IsMarkerLine(lines[k])
    decreases |lines| - from
  {
    if from == |lines| then None
    else if IsMarkerLine(lines[from]) then Some(from)
    else FirstMarkerLine(lines, from + 1)
  }

  /** The type: decided by the first line holding the marker, "Order" when
      one of the two lines after it starts with "order". */
  function DocType(lines: seq<string>): (t: string)
    ensures t == "Order" || t == "Judgment"
  {
    match FirstMarkerLine(lines, 0)
    case None => "Judgment"
    case Some(i) => if IsOrderLine(lines, i + 1) || IsOrderLine(lines, i + 2) then "Order" else "Judgment"
  }

  /** "Order" exactly when the first marker line is followed, within two
      lines, by a line starting with "order". */
  lemma DocTypeOrderIff(lines: seq<string>)
    ensures DocType(lines) == "Order" <==> exists i :: MarkerFollowedByOrder(lines, i)
  {
    assert "Judgment" != "Order" by {
      assert |"Judgment"| != |"Order"|;
    }
    var r := FirstMarkerLine(lines, 0);
    forall i: nat | MarkerFollowedByOrder(lines, i) ensures r == Some(i) {
      FirstMarkerLineIs(lines, i);
    }
    if r.Some? && (IsOrderLine(lines, r.value + 1) || IsOrderLine(lines, r.value + 2)) {
      FirstMarkerLineIs(lines, r.value);
      assert MarkerFollowedByOrder(lines, r.value);
    }
  }

  /** A marker line with none before it is the first marker line. */
  lemma FirstMarkerLineIs(lines: seq<string>, i: nat)
    requires i < |lines| && IsMarkerLine(lines[i])
    ensures (forall k :: 0 <= k < i ==> !IsMarkerLine(lines[k])) <==> FirstMarkerLine(lines, 0) == Some(i)
  {
  }

  method DetectDocType(lines: seq<string>) returns (docType: string)
    ensures docType == DocType(lines)
  {
    docType := "Judgment";
    var i := 0;
    while i < |lines|
      invariant 0 <= i <= |lines|
      invariant forall k :: 0 <= k < i ==> !IsMarkerLine(lines[k])
      invariant docType == "Judgment"
    {
      if IsMarkerLine(lines[i]) {
        var found := false;
        var j := 1;
        while j < 3
          invariant 1 <= j <= 3
          invariant !found
          invariant forall k :: i + 1 <= k < i + j ==> !IsOrderLine(lines, k)
        {
          if IsOrderLine(lines, i + j) {
            assert IsOrderLine(lines, i + 1) || IsOrderLine(lines, i + 2) by {
              if j == 1 { assert i + j == i + 1; } else { assert i + j == i + 2; }
            }
            docType := "Order";
            found := true;
            break;
          }
          j := j + 1;
        }
        assert docType == DocType(lines) by {
          assert found <==> IsOrderLine(lines, i + 1) || IsOrderLine(lines, i + 2);
          assert docType == if found then "Order" else "Judgment";
          DocTypeAtMarker(lines, i);
        }
        break;
      }
      i := i + 1;
    }
    if i == |lines| {
      DocTypeAtMarker(lines, i);
    }
  }

  /** The type is decided by the first marker line, or is "Judgment" when
      there is none. */
  lemma DocTypeAtMarker(lines: seq<string>, i: nat)
    requires i <= |lines| && forall k :: 0 <= k < i ==> !IsMarkerLine(lines[k])
    requires i < |lines| ==> IsMarkerLine(lines[i])
    ensures i == |lines| ==> DocType(lines) == "Judgment"
    ensures i < |lines| ==>
      DocType(lines) == if IsOrderLine(lines, i + 1) || IsOrderLine(lines, i + 2) then "Order" else "Judgment"
  {
    var r := FirstMarkerLine(lines, 0);
    if i == |lines| {
      assert r.None?;
    } else {
      assert r == Some(i);
    }
  }

  // ---------------------------------------------------------------------
  // Judge names
  // ---------------------------------------------------------------------

  /** A match of `\s+and\s+` starts at `i`: whitespace up to `j`, then
      "and", then at least one more whitespace character. */
  predicate AndAt(s: string, i: nat, j: nat) {
    i < j && j + 3 < |s| && (forall k :: i <= k < j ==> IsSpace(s[k]))
    && s[j..j + 3] == "and" && IsSpace(s[j + 3])
  }

  /** A match of `\s+and\s+|,` starts at `i`. */
  ghost predicate SeparatorAt(s: string, i: nat) {
    (i < |s| && s[i] == ',') || exists j: nat :: AndAt(s, i, j)
  }

  /** A whole separator match: a comma, or whitespace, "and", whitespace. */
  ghost predicate IsSeparatorText(t: string) {
    t == "," || exists j: nat :: AndAt(t, 0, j) && forall k :: j + 3 <= k < |t| ==> IsSpace(t[k])
  }

  /** End of the match of the separator `\s+and\s+|,` that starts at `i`;
      the "and" alternative is tried first and takes all the whitespace
      around the word. */
  function SeparatorEnd(s: string, i: nat): (e: Option<nat>)
    requires i <= |s|
    ensures e.Some? ==> i < e.value <= |s|
    ensures i < |s| && s[i] == ',' ==> e == Some(i + 1)
    ensures e.Some? && s[i] != ',' ==>
      var j := SkipSpaces(s, i);
      AndAt(s, i, j) && e.value == SkipSpaces(s, j + 3)
  {
    var j := SkipSpaces(s, i);
    if AndAt(s, i, j) then Some(SkipSpaces(s, j + 3))
    else if i < |s| && s[i] == ',' then Some(i + 1)
    else None
  }

  /** `SeparatorEnd` finds a match exactly where one starts, and the text it
      covers is a whole separator that no more whitespace could extend. */
  lemma SeparatorEndMatches(s: string, i: nat)
    requires i <= |s|
    ensures SeparatorEnd(s, i).Some? <==> SeparatorAt(s, i)
    ensures SeparatorEnd(s, i).Some? ==>
      var e := SeparatorEnd(s, i).value;
      IsSeparatorText(s[i..e]) && (s[i] != ',' ==> e == |s| || !IsSpace(s[e]))
  {
    var j := SkipSpaces(s, i);
    forall j': nat | AndAt(s, i, j') ensures j' == j {
      assert s[j'] == s[j'..j' + 3][0] == 'a';
    }
    var r := SeparatorEnd(s, i);
    if r.Some? {
      var e := r.value;
      var t := s[i..e];
      if s[i] == ',' {
        assert t == ",";
      } else {
        AndAtInSlice(s, i, j, e);
      }
    }
  }

  /** An "and" separator at `i`..`e` in `s` is one at the start of `s[i..e]`,
      with only whitespace after the "and". */
  lemma AndAtInSlice(s: string, i: nat, j: nat, e: nat)
    requires AndAt(s, i, j) && j + 3 < e <= |s|
    requires forall k :: j + 3 <= k < e ==> IsSpace(s[k])
    ensures AndAt(s[i..e], 0, j - i)
    ensures forall k :: j - i + 3 <= k < e - i ==> IsSpace(s[i..e][k])
  {
    var t := s[i..e];
    assert forall k :: 0 <= k < |t| ==> t[k] == s[i + k];
    assert t[j - i..j - i + 3] == s[j..j + 3] by {
      var w := t[j - i..j - i + 3];
      assert w[0] == s[j] && w[1] == s[j + 1] && w[2] == s[j + 2];
    }
  }

  /** `re.split(r'\s+and\s+|,', s)` from `start`, scanning at `i`. */
  function Pieces(s: string, start: nat, i: nat): (r: seq<string>)
    requires start <= i <= |s|
    requires ',' !in s[start..i]
    ensures |r| >= 1
    ensures forall k :: 0 <= k < |r| ==> ',' !in r[k]
    decreases |s| - i
  {
    if i == |s| then [s[start..]]
    else match SeparatorEnd(s, i)
      case Some(e) => [s[start..i]] + Pieces(s, e, e)
      case None =>
        assert s[start..i + 1] == s[start..i] + [s[i]];
        Pieces(s, start, i + 1)
  }

  /** The separator texts the same scan drops, in order. */
  function Separators(s: string, start: nat, i: nat): (r: seq<string>)
    requires start <= i <= |s|
    decreases |s| - i
  {
    if i == |s| then []
    else match SeparatorEnd(s, i)
      case Some(e) => [s[i..e]] + Separators(s, e, e)
      case None => Separators(s, start, i + 1)
  }

  /** The pieces with the separators put back between them. */
  function Interleave(pieces: seq<string>, seps: seq<string>): (r: string)
    requires |pieces| == |seps| + 1
    ensures |pieces| == 1 ==> r == pieces[0]
  {
    if seps == [] then pieces[0]
    else pieces[0] + seps[0] + Interleave(pieces[1..], seps[1..])
  }

  function SplitJudges(s: string): (r: seq<string>)
    ensures |r| >= 1
    ensures forall k :: 0 <= k < |r| ==> ',' !in r[k]
  {
    Pieces(s, 0, 0)
  }

  /** Putting the dropped separators back between the pieces gives the text
      the scan started on. */
  lemma {:induction false} PiecesReassemble(s: string, start: nat, i: nat)
    requires start <= i <= |s| && ',' !in s[start..i]
    ensures |Separators(s, start, i)| + 1 == |Pieces(s, start, i)|
    ensures Interleave(Pieces(s, start, i), Separators(s, start, i)) == s[start..]
    decreases |s| - i
  {
    if i < |s| {
      match SeparatorEnd(s, i)
      case Some(e) =>
        PiecesReassemble(s, e, e);
        ReassembleAtSeparator(s, start, i, e);
      case None =>
        assert s[start..i + 1] == s[start..i] + [s[i]];
        PiecesReassemble(s, start, i + 1);
    }
  }

  /** The reassembly step at a separator found at `i`, given the reassembly from its end. */
  lemma ReassembleAtSeparator(s: string, start: nat, i: nat, e: nat)
    requires start <= i < |s| && ',' !in s[start..i]
    requires SeparatorEnd(s, i) == Some(e)
    requires |Separators(s, e, e)| + 1 == |Pieces(s, e, e)|
    requires Interleave(Pieces(s, e, e), Separators(s, e, e)) == s[e..]
    ensures |Separators(s, start, i)| + 1 == |Pieces(s, start, i)|
    ensures Interleave(Pieces(s, start, i), Separators(s, start, i)) == s[start..]
  {
    assert Pieces(s, start, i) == [s[start..i]] + Pieces(s, e, e);
    assert Separators(s, start, i) == [s[i..e]] + Separators(s, e, e);
    JoinStep(s, start, i, e, Pieces(s, e, e), Separators(s, e, e));
  }

  /** Putting a piece and a separator in front of the reassembly of `s[e..]`. */
  lemma JoinStep(s: string, start: nat, i: nat, e: nat, ps: seq<string>, ss: seq<string>)
    requires start <= i <= e <= |s| && |ps| == |ss| + 1
    requires Interleave(ps, ss) == s[e..]
    ensures Interleave([s[start..i]] + ps, [s[i..e]] + ss) == s[start..]
  {
    InterleaveCons(s[start..i], ps, s[i..e], ss);
    SliceJoin(s, start, i, e);
    SliceJoin(s, start, e, |s|);
    assert s[e..] == s[e..|s|];
    assert s[start..] == s[start..|s|];
  }

  lemma SliceJoin(s: string, a: nat, b: nat, c: nat)
    requires a <= b <= c <= |s|
    ensures s[a..b] + s[b..c] == s[a..c]
  {
  }

  lemma InterleaveCons(p: string, ps: seq<string>, sep: string, ss: seq<string>)
    requires |ps| == |ss| + 1
    ensures Interleave([p] + ps, [sep] + ss) == p + sep + Interleave(ps, ss)
  {
    assert ([p] + ps)[1..] == ps;
    assert ([sep] + ss)[1..] == ss;
  }

  /** Each text the scan drops is one whole separator. */
  lemma {:induction false} SeparatorsAreWhole(s: string, start: nat, i: nat)
    requires start <= i <= |s|
    ensures forall k :: 0 <= k < |Separators(s, start, i)| ==> IsSeparatorText(Separators(s, start, i)[k])
    decreases |s| - i
  {
    if i < |s| {
      SeparatorEndMatches(s, i);
      match SeparatorEnd(s, i)
      case Some(e) =>
        SeparatorsAreWhole(s, e, e);
        var ss := Separators(s, start, i);
        assert ss == [s[i..e]] + Separators(s, e, e);
      case None =>
        SeparatorsAreWhole(s, start, i + 1);
    }
  }

  /** A separator inside a slice is a separator of the whole text. */
  lemma SeparatorInSlice(s: string, a: nat, b: nat, m: nat)
    requires a <= b <= |s| && m < b - a && SeparatorAt(s[a..b], m)
    ensures SeparatorAt(s, a + m)
  {
    var t := s[a..b];
    if !(t[m] == ',') {
      var j: nat :| AndAt(t, m, j);
      assert t[j..j + 3] == s[a + j..a + j + 3] by {
        assert t[j] == s[a + j] && t[j + 1] == s[a + j + 1] && t[j + 2] == s[a + j + 2];
      }
      assert forall k :: a + m <= k < a + j ==> s[k] == t[k - a];
      assert AndAt(s, a + m, a + j);
    }
  }

  /** No separator starts anywhere inside `p`, read on its own. */
  ghost predicate NoSeparatorIn(p: string) {
    forall m :: 0 <= m < |p| ==> !SeparatorAt(p, m)
  }

  /** A slice of text in which no separator starts holds none either. */
  lemma SliceHoldsNoSeparator(s: string, a: nat, b: nat)
    requires a <= b <= |s|
    requires forall k :: a <= k < b ==> !SeparatorAt(s, k)
    ensures NoSeparatorIn(s[a..b])
  {
    forall m | 0 <= m < b - a ensures !SeparatorAt(s[a..b], m) {
      if SeparatorAt(s[a..b], m) {
        SeparatorInSlice(s, a, b, m);
      }
    }
  }

  /** No separator starts anywhere inside a piece. */
  lemma {:induction false} PiecesHoldNoSeparator(s: string, start: nat, i: nat)
    requires start <= i <= |s| && ',' !in s[start..i]
    requires forall k :: start <= k < i ==> !SeparatorAt(s, k)
    ensures forall k :: 0 <= k < |Pieces(s, start, i)| ==> NoSeparatorIn(Pieces(s, start, i)[k])
    decreases |s| - i
  {
    var r := Pieces(s, start, i);
    if i == |s| {
      assert r == [s[start..]];
      assert s[start..] == s[start..|s|];
      SliceHoldsNoSeparator(s, start, |s|);
    } else {
      SeparatorEndMatches(s, i);
      match SeparatorEnd(s, i)
      case Some(e) =>
        PiecesHoldNoSeparator(s, e, e);
        assert r == [s[start..i]] + Pieces(s, e, e);
        SliceHoldsNoSeparator(s, start, i);
      case None =>
        assert s[start..i + 1] == s[start..i] + [s[i]];
        assert r == Pieces(s, start, i + 1);
        PiecesHoldNoSeparator(s, start, i + 1);
    }
  }

  /** `re.split` drops exactly the separator matches: the pieces with the
      dropped separators put back are the input, and no piece holds the
      start of a separator. */
  lemma SplitJudgesInverse(s: string)
    ensures |Separators(s, 0, 0)| + 1 == |SplitJudges(s)|
    ensures Interleave(SplitJudges(s), Separators(s, 0, 0)) == s
    ensures forall k :: 0 <= k < |Separators(s, 0, 0)| ==> IsSeparatorText(Separators(s, 0, 0)[k])
    ensures forall k :: 0 <= k < |SplitJudges(s)| ==> NoSeparatorIn(SplitJudges(s)[k])
  {
    PiecesReassemble(s, 0, 0);
    SeparatorsAreWhole(s, 0, 0);
    PiecesHoldNoSeparator(s, 0, 0);
    assert s[0..] == s;
  }

  /** Text in which no separator starts is one piece. */
  lemma {:induction false} NoSeparatorOnePiece(s: string, start: nat, i: nat)
    requires start <= i <= |s| && ',' !in s[start..i]
    requires forall k :: i <= k < |s| ==> SeparatorEnd(s, k).None?
    ensures Pieces(s, start, i) == [s[start..]]
    decreases |s| - i
  {
    if i < |s| {
      assert SeparatorEnd(s, i).None?;
      assert s[start..i + 1] == s[start..i] + [s[i]];
      NoSeparatorOnePiece(s, start, i + 1);
    }
  }

  /** A piece that, stripped, names a judge: not blank and not a suffix. */
  predicate IsJudgeName(name: string) {
    name != [] && Upper(name) !in JudgeSuffixes
  }

  /** The judge names collected from the pieces, each once. */
  function KeptJudges(parts: seq<string>): seq<string> {
    if parts == [] then []
    else
      var names := KeptJudges(parts[..|parts| - 1]);
      var name := Strip(parts[|parts| - 1]);
      if IsJudgeName(name) && name !in names then names + [name] else names
  }

  method CollectJudgeNames(raw: string) returns (names: seq<string>)
    ensures names == KeptJudges(SplitJudges(raw))
  {
    var parts := SplitJudges(raw);
    names := [];
    for i := 0 to |parts|
      invariant names == KeptJudges(parts[..i])
    {
      assert parts[..i + 1][..i] == parts[..i];
      var name := Strip(parts[i]);
      if name != [] && Upper(name) !in JudgeSuffixes && name !in names {
        names := names + [name];
      }
    }
    assert parts[..|parts|] == parts;
  }

  /** The judge names are the stripped pieces that name a judge, in order of
      first occurrence, each once. */
  lemma {:induction false} KeptJudgesIsDedup(parts: seq<string>)
    ensures KeptJudges(parts) == Dedup(Filter(StripAll(parts), IsJudgeName))
  {
    if parts != [] {
      var p := parts[..|parts| - 1];
      var x := parts[|parts| - 1];
      KeptJudgesIsDedup(p);
      StripAllLast(parts);
      DedupFilterSnoc(StripAll(p), Strip(x), IsJudgeName);
    }
  }

  /** No judge name is blank, a suffix, repeated, or holds a comma; every
      stripped piece that names a judge is listed. */
  lemma JudgeNamesFacts(raw: string)
    ensures var names := KeptJudges(SplitJudges(raw));
      && Distinct(names)
      && (forall n :: n in names <==> n in StripAll(SplitJudges(raw)) && IsJudgeName(n))
      && (forall k :: 0 <= k < |names| ==> ',' !in names[k])
  {
    var parts := SplitJudges(raw);
    KeptJudgesIsDedup(parts);
    var names := KeptJudges(parts);
    forall k | 0 <= k < |names| ensures ',' !in names[k] {
      assert names[k] in StripAll(parts);
      var i :| 0 <= i < |parts| && StripAll(parts)[i] == names[k];
      StripIsInner(parts[i]);
      var a := |parts[i]| - |TrimStart(parts[i])|;
      assert ',' !in parts[i];
    }
  }

  // ---------------------------------------------------------------------
  // The record
  // ---------------------------------------------------------------------

  function JudgeNamesOf(doc: Document): seq<string> {
    match doc.judgeGroup
    case None => []
    case Some(g) => KeptJudges(SplitJudges(g))
  }

  const DetailKeys: seq<string> := [
    "Case No. (Program 1)", "Other Case Nos (Program 1)", "Case Title (Program 1)",
    "Judgment Date (Program 1)", "Month (Program 1)", "Year (Program 1)",
    "Headnotes (Program 1)", "Headnote Extraction Method (Program 1)", "Type (Program 1)",
    "Judge Names (Program 1)", "No. of Judges (Program 1)", "Page Count (Program 1)",
    "Headnotes_1 (Program 1)"]

  /** The record built from the pieces the loops computed. */
  function Assemble(doc: Document, kept: seq<string>, headnotes: (string, string),
                    docType: string, judges: seq<string>): Record
  {
    var (part1, part2) := SplitCell(headnotes.0);
    [(DetailKeys[0], Str(if kept != [] then kept[0] else NotFound)),
     (DetailKeys[1], Str(if |kept| > 1 then Join(kept[1..], ", ") else NotFound)),
     (DetailKeys[2], Str(doc.caseTitle)),
     (DetailKeys[3], Str(doc.judgmentDate)),
     (DetailKeys[4], Str(doc.month)),
     (DetailKeys[5], Str(doc.year)),
     (DetailKeys[6], Str(part1)),
     (DetailKeys[7], Str(headnotes.1)),
     (DetailKeys[8], Str(docType)),
     (DetailKeys[9], Str(if judges != [] then Join(judges, ", ") else NotFound)),
     (DetailKeys[10], Str(if |judges| > 0 then NatToString(|judges|) else NotFound)),
     (DetailKeys[11], Str(NatToString(doc.pageCount))),
     (DetailKeys[12], Str(part2))]
  }

  /** `extract_legal_details`: the record, or the single error key when a
      library call raised. */
  function LegalDetails(input: Result<Document>): Record {
    match input
    case Failure(e) => [(ErrorKey, Str(e))]
    case Success(doc) =>
      Assemble(doc, KeptCaseNumbers(StripAll(doc.caseNoMatches)), HeadnoteContent(doc.headnoteMatches),
               DocType(doc.typeLines), JudgeNamesOf(doc))
  }

  method ExtractLegalDetails(input: Result<Document>) returns (r: Record)
    ensures r == LegalDetails(input)
  {
    match input
    case Failure(e) =>
      r := [(ErrorKey, Str(e))];
    case Success(doc) =>
      var kept := CleanCaseNumbers(StripAll(doc.caseNoMatches));
      var headnotes := HeadnoteContent(doc.headnoteMatches);
      var docType := DetectDocType(doc.typeLines);
      var judges := [];
      if doc.judgeGroup.Some? {
        judges := CollectJudgeNames(doc.judgeGroup.value);
      }
      r := Assemble(doc, kept, headnotes, docType, judges);
  }

  lemma DetailKeysDistinct()
    ensures Distinct(DetailKeys)
  {
    forall i, j | 0 <= i < j < |DetailKeys| ensures DetailKeys[i] != DetailKeys[j] {
      assert DetailKeys[i][|DetailKeys[i]| - 3] != DetailKeys[j][|DetailKeys[j]| - 3]
          || DetailKeys[i][0] != DetailKeys[j][0] || DetailKeys[i][1] != DetailKeys[j][1]
          || |DetailKeys[i]| != |DetailKeys[j]|;
    }
  }

  /** The record has the thirteen keys in order, each once. */
  lemma AssembleKeys(doc: Document, kept: seq<string>, headnotes: (string, string),
                     docType: string, judges: seq<string>)
    ensures Keys(Assemble(doc, kept, headnotes, docType, judges)) == DetailKeys
    ensures WellFormed(Assemble(doc, kept, headnotes, docType, judges))
  {
    assert Keys(Assemble(doc, kept, headnotes, docType, judges)) == DetailKeys;
    DetailKeysDistinct();
  }

  /** The two headnote cells give back the whole headnote text and the
      first fits a cell; the judge count is the number of names. */
  lemma AssembleCells(doc: Document, kept: seq<string>, headnotes: (string, string),
                      docType: string, judges: seq<string>)
    ensures Assemble(doc, kept, headnotes, docType, judges)[6].1.text
          + Assemble(doc, kept, headnotes, docType, judges)[12].1.text == headnotes.0
    ensures |Assemble(doc, kept, headnotes, docType, judges)[6].1.text| <= MaxCellLength
    ensures Assemble(doc, kept, headnotes, docType, judges)[10].1
          == Str(if judges == [] then NotFound else NatToString(|judges|))
  {
  }

  /** A document yields the record above, whose case number is the first
      candidate found, or "Not found" when there is none; a library failure
      yields the error key alone. */
  lemma LegalDetailsShape(input: Result<Document>)
    ensures input.Failure? ==> LegalDetails(input) == [(ErrorKey, Str(input.error))]
    ensures input.Success? ==>
      var r := LegalDetails(input);
      && Keys(r) == DetailKeys && WellFormed(r)
      && r[6].1.text + r[12].1.text == HeadnoteContent(input.value.headnoteMatches).0
      && |r[6].1.text| <= MaxCellLength
      && r[10].1 == Str(if JudgeNamesOf(input.value) == [] then NotFound else NatToString(|JudgeNamesOf(input.value)|))
    ensures input.Success? && input.value.caseNoMatches == [] ==> LegalDetails(input)[0].1 == Str(NotFound)
    ensures input.Success? && input.value.caseNoMatches != [] ==>
      LegalDetails(input)[0].1 == Str(Strip(input.value.caseNoMatches[0]))
  {
    if input.Success? {
      var doc := input.value;
      var kept := KeptCaseNumbers(StripAll(doc.caseNoMatches));
      KeptCaseNumbersFacts(StripAll(doc.caseNoMatches));
      AssembleKeys(doc, kept, HeadnoteContent(doc.headnoteMatches), DocType(doc.typeLines), JudgeNamesOf(doc));
      AssembleCells(doc, kept, HeadnoteContent(doc.headnoteMatches), DocType(doc.typeLines), JudgeNamesOf(doc));
    }
  }
}
