/** Program 5, `extract_citations`: the paragraphs of a judgment that name
    a case ("A v. B", "A versus B", ...), each listed with the case names
    found in it and a preview of its text, and the list of all case names
    cited.  The case-name pattern is an input (its `findall` result on a
    paragraph), and so is the paragraph split (its `re.split` pieces). */
module CaseCitations {
  import opened Text
  import opened Records

  const ErrorKey := "Error (Program 5)"
  const FoundKey := "Citations Found (Program 5)"
  const DetailsKey := "Citation Details (Program 5)"
  const NoText := "No text extracted from PDF"
  const NoCitations := "No citations found"
  const NoDetails := "No citation details available"

  /** How much of a paragraph its preview shows. */
  const PreviewLength := 200

  /** A paragraph that names cases, with the names found in it. */
  datatype Citation = Citation(names: seq<string>, paragraph: string)

  // ---------------------------------------------------------------------
  // `find_citations_in_paragraphs`
  // ---------------------------------------------------------------------

  /** What the entry for a paragraph holds: the names the pattern finds in
      it, at least one, each once.  (`list(set(...))` leaves the order to
      Python; the model keeps the order of first occurrence.) */
  ghost predicate Entry(c: Citation, find: string -> seq<string>) {
    c.names != [] && Distinct(c.names) && forall x :: x in c.names <==> x in find(c.paragraph)
  }

  /** A paragraph in which the pattern finds a case name. */
  function NamesCase(find: string -> seq<string>): string -> bool {
    p => find(p) != []
  }

  /** The entries for `paragraphs`, one per paragraph that names a case, in
      paragraph order. */
  function Cited(paragraphs: seq<string>, find: string -> seq<string>): (cs: seq<Citation>)
    ensures |cs| <= |paragraphs|
    ensures forall k :: 0 <= k < |cs| ==> Entry(cs[k], find) && cs[k].paragraph in paragraphs
  {
    if paragraphs == [] then []
    else
      var init := Cited(paragraphs[..|paragraphs| - 1], find);
      var para := paragraphs[|paragraphs| - 1];
      assert paragraphs == paragraphs[..|paragraphs| - 1] + [para];
      if find(para) != [] then init + [Citation(Dedup(find(para)), para)] else init
  }

  method FindCitations(paragraphs: seq<string>, find: string -> seq<string>) returns (citations: seq<Citation>)
    ensures citations == Cited(paragraphs, find)
  {
    citations := [];
    for i := 0 to |paragraphs|
      invariant citations == Cited(paragraphs[..i], find)
    {
      assert paragraphs[..i + 1][..i] == paragraphs[..i];
      var matches := find(paragraphs[i]);
      if matches != [] {
        citations := citations + [Citation(Dedup(matches), paragraphs[i])];
      }
    }
    assert paragraphs[..|paragraphs|] == paragraphs;
  }

  /** The paragraphs of a list of entries. */
  function ParagraphsOf(cs: seq<Citation>): (ps: seq<string>)
    ensures |ps| == |cs| && forall k :: 0 <= k < |cs| ==> ps[k] == cs[k].paragraph
  {
    seq(|cs|, k requires 0 <= k < |cs| => cs[k].paragraph)
  }

  /** The entries are exactly the paragraphs that name a case, in the order
      of the text and each as often as it occurs there. */
  lemma {:induction false} CitedParagraphs(paragraphs: seq<string>, find: string -> seq<string>)
    ensures ParagraphsOf(Cited(paragraphs, find)) == Filter(paragraphs, NamesCase(find))
  {
    if paragraphs != [] {
      var init := paragraphs[..|paragraphs| - 1];
      var para := paragraphs[|paragraphs| - 1];
      CitedParagraphs(init, find);
      assert paragraphs == init + [para];
      FilterSnoc(init, para, NamesCase(find));
      var cs := Cited(init, find);
      if find(para) != [] {
        assert ParagraphsOf(cs + [Citation(Dedup(find(para)), para)]) == ParagraphsOf(cs) + [para];
      } else {
        assert Filter(init, NamesCase(find)) + [] == Filter(init, NamesCase(find));
      }
    }
  }

  // ---------------------------------------------------------------------
  // The details of each entry
  // ---------------------------------------------------------------------

  /** The first 200 characters and "..." for a longer paragraph, the whole
      paragraph otherwise. */
  function Preview(paragraph: string): (r: string)
    ensures |r| <= PreviewLength + 3
    ensures |paragraph| <= PreviewLength ==> r == paragraph
    ensures |paragraph| > PreviewLength ==> paragraph[..PreviewLength] <= r && r[PreviewLength..] == "..."
  {
    if |paragraph| > PreviewLength then paragraph[..PreviewLength] + "..." else paragraph
  }

  /** A preview shows the paragraph unchanged exactly when it is short, or
      when it is 203 characters long and already ends in "...". */
  lemma PreviewUnchanged(paragraph: string)
    ensures Preview(paragraph) == paragraph <==>
      |paragraph| <= PreviewLength || (|paragraph| == PreviewLength + 3 && paragraph[PreviewLength..] == "...")
  {
    if |paragraph| == PreviewLength + 3 && paragraph[PreviewLength..] == "..." {
      assert paragraph == paragraph[..PreviewLength] + paragraph[PreviewLength..];
    }
  }

  const NumberPrefix := "Citation "

  /** `f"Citation {i}: {', '.join(case_names)} | Context: {para_preview}"`. */
  function Detail(number: nat, c: Citation): string {
    NumberPrefix + NatToString(number) + Context(c)
  }

  /** What follows the number in a detail. */
  function Context(c: Citation): string {
    ": " + Join(c.names, ", ") + " | Context: " + Preview(c.paragraph)
  }

  /** Details with different numbers differ. */
  lemma DetailNumber(m: nat, n: nat, c: Citation, d: Citation)
    requires Detail(m, c) == Detail(n, d)
    ensures m == n
  {
    NumeralsAgree(NumberPrefix, NatToString(m), NatToString(n), Context(c), Context(d));
    NatToStringInjective(m, n);
  }

  /** So two details numbered differently are different. */
  lemma DetailsDiffer(m: nat, n: nat, c: Citation, d: Citation)
    requires m != n
    ensures Detail(m, c) != Detail(n, d)
  {
    if Detail(m, c) == Detail(n, d) {
      DetailNumber(m, n, c, d);
    }
  }

  /** The details of the entries, numbered from 1. */
  function Details(cs: seq<Citation>): (ds: seq<string>)
    ensures |ds| == |cs| && forall k :: 0 <= k < |cs| ==> ds[k] == Detail(k + 1, cs[k])
  {
    seq(|cs|, k requires 0 <= k < |cs| => Detail(k + 1, cs[k]))
  }

  /** All the names of the entries, entry after entry. */
  function AllNames(cs: seq<Citation>): (names: seq<string>)
    ensures forall x :: x in names <==> exists k :: 0 <= k < |cs| && x in cs[k].names
  {
    if cs == [] then []
    else
      var init := cs[..|cs| - 1];
      var names := AllNames(init);
      assert forall k :: 0 <= k < |init| ==> init[k] == cs[k];
      names + cs[|cs| - 1].names
  }

  /** The loop over the entries: every entry's names go to the list of all
      names, and its numbered detail to the details. */
  method Summarise(citations: seq<Citation>) returns (names: seq<string>, details: seq<string>)
    ensures names == AllNames(citations)
    ensures details == Details(citations)
  {
    names := [];
    details := [];
    for i := 0 to |citations|
      invariant names == AllNames(citations[..i])
      invariant details == Details(citations[..i])
    {
      AllNamesStep(citations, i);
      DetailsStep(citations, i);
      names := names + citations[i].names;
      details := details + [Detail(i + 1, citations[i])];
    }
    assert citations[..|citations|] == citations;
  }

  /** The names of the first `i + 1` entries are those of the first `i`
      followed by the names of entry `i`. */
  lemma AllNamesStep(cs: seq<Citation>, i: nat)
    requires i < |cs|
    ensures AllNames(cs[..i + 1]) == AllNames(cs[..i]) + cs[i].names
  {
    assert cs[..i + 1][..i] == cs[..i];
  }

  /** The details of the first `i + 1` entries are those of the first `i`
      followed by the detail of entry `i`, numbered `i + 1`. */
  lemma DetailsStep(cs: seq<Citation>, i: nat)
    requires i < |cs|
    ensures Details(cs[..i + 1]) == Details(cs[..i]) + [Detail(i + 1, cs[i])]
  {
    var ds := Details(cs[..i + 1]);
    assert ds[..i] == Details(cs[..i]);
  }

  /** Each detail carries its own number: no two details are the same,
      even when two entries are. */
  lemma DetailsDistinct(cs: seq<Citation>)
    ensures Distinct(Details(cs))
  {
    var ds := Details(cs);
    forall i, j | 0 <= i < j < |cs| ensures ds[i] != ds[j] {
      DetailsDiffer(i + 1, j + 1, cs[i], cs[j]);
    }
  }

  /** The `k`-th detail opens with "Citation k: ". */
  lemma DetailsNumbered(cs: seq<Citation>, k: nat)
    requires 1 <= k <= |cs|
    ensures StartsWith(Details(cs)[k - 1], NumberPrefix + NatToString(k) + ": ")
  {
    var c := cs[k - 1];
    var p := NumberPrefix + NatToString(k) + ": ";
    assert Details(cs)[k - 1] == p + (Join(c.names, ", ") + " | Context: " + Preview(c.paragraph));
  }

  // ---------------------------------------------------------------------
  // `extract_citations`
  // ---------------------------------------------------------------------

  /** The paragraphs: the split pieces, stripped, the blank ones dropped. */
  function Paragraphs(text: string, split: string -> seq<string>): (paras: seq<string>)
    ensures forall k :: 0 <= k < |paras| ==> Inner(paras[k])
  {
    StripBlanks(split(text))
  }

  /** `extract_citations` on the extracted text ("" when there is none). */
  function CitationRecord(text: string, split: string -> seq<string>, find: string -> seq<string>): Record {
    if text == [] then [(ErrorKey, Str(NoText))]
    else
      var cs := Cited(Paragraphs(text, split), find);
      if cs == [] then [(FoundKey, Str(NoCitations)), (DetailsKey, Str(NoDetails))]
      else [(FoundKey, Str(Join(Dedup(AllNames(cs)), "; "))), (DetailsKey, Str(Join(Details(cs), " || ")))]
  }

  method ExtractCitations(text: string, split: string -> seq<string>, find: string -> seq<string>)
    returns (details: Record)
    ensures details == CitationRecord(text, split, find)
  {
    if text == [] {
      return [(ErrorKey, Str(NoText))];
    }
    details := [(FoundKey, Str("Not found")), (DetailsKey, Str("Not found"))];
    var paragraphs := StripBlanks(split(text));
    var citations := FindCitations(paragraphs, find);
    if citations != [] {
      var names, lines := Summarise(citations);
      details := [(FoundKey, Str(Join(Dedup(names), "; "))), (DetailsKey, Str(Join(lines, " || ")))];
    } else {
      details := [(FoundKey, Str(NoCitations)), (DetailsKey, Str(NoDetails))];
    }
  }

  /** The names listed as found are exactly the case names found in some
      paragraph, each once. */
  lemma {:induction false} FoundNames(paragraphs: seq<string>, find: string -> seq<string>)
    ensures var found := Dedup(AllNames(Cited(paragraphs, find)));
      Distinct(found) && forall x :: x in found <==> exists p :: p in paragraphs && x in find(p)
  {
    var cs := Cited(paragraphs, find);
    forall x ensures x in AllNames(cs) <==> exists p :: p in paragraphs && x in find(p) {
      if exists p :: p in paragraphs && x in find(p) {
        var p :| p in paragraphs && x in find(p);
        CitedParagraphs(paragraphs, find);
        assert p in Filter(paragraphs, NamesCase(find));
        var k :| 0 <= k < |cs| && ParagraphsOf(cs)[k] == p;
        assert x in cs[k].names;
      }
    }
  }

  /** No text gives the error entry; no paragraph naming a case gives the
      two fixed messages; otherwise the found names and the details, one
      per paragraph naming a case. */
  lemma CitationRecordCases(text: string, split: string -> seq<string>, find: string -> seq<string>)
    ensures text == [] ==> CitationRecord(text, split, find) == [(ErrorKey, Str(NoText))]
    ensures text != [] && Filter(Paragraphs(text, split), NamesCase(find)) == [] ==>
      CitationRecord(text, split, find) == [(FoundKey, Str(NoCitations)), (DetailsKey, Str(NoDetails))]
    ensures text != [] && Filter(Paragraphs(text, split), NamesCase(find)) != [] ==>
      var cs := Cited(Paragraphs(text, split), find);
      |cs| == |Filter(Paragraphs(text, split), NamesCase(find))| &&
      CitationRecord(text, split, find) ==
        [(FoundKey, Str(Join(Dedup(AllNames(cs)), "; "))), (DetailsKey, Str(Join(Details(cs), " || ")))]
  {
    if text != [] {
      CitedParagraphs(Paragraphs(text, split), find);
    }
  }
}
