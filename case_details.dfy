/** Program 12, `extract_case_details`: the conclusion of a judgment. The
    pages are searched from the last to the first for a paragraph carrying a
    conclusion heading; the text from that paragraph to the end of the
    document is the conclusion, and without any heading the last two pages
    stand in for it.  Paragraph splitting and the heading patterns are
    regular expressions and are given as functions. */
module CaseDetails {
  import opened Text
  import opened Records

  const ConclusionKey := "Conclusion (Program 12)"
  const ErrorKey := "Error (Program 12)"
  const NotFound := "Not Found"

  // ---------------------------------------------------------------------
  // `extract_text_by_page`
  // ---------------------------------------------------------------------

  /** The stripped text of each page, or no pages at all when the PDF could
      not be read or every page is blank. */
  function TextByPage(raw: Result<seq<string>>): (pages: seq<string>)
    ensures raw.Failure? ==> pages == []
    ensures raw.Success? && (exists k :: 0 <= k < |raw.value| && Strip(raw.value[k]) != []) ==>
      pages == StripAll(raw.value)
    ensures raw.Success? && (forall k :: 0 <= k < |raw.value| ==> Strip(raw.value[k]) == []) ==>
      pages == []
  {
    if raw.Failure? then []
    else
      var pages := StripAll(raw.value);
      if forall k :: 0 <= k < |pages| ==> pages[k] == [] then [] else pages
  }

  // ---------------------------------------------------------------------
  // `extract_conclusion`, as a specification
  // ---------------------------------------------------------------------

  /** The first paragraph of a page that matches one of the conclusion
      headings ("Conclusion", "Conclusions", "OUR CONCLUSION", "Final
      Remarks", "Summary of Findings", "Judgment Summary", "Concluding
      Remarks", ignoring case); `heading` stands for that search. */
  function FirstHeading(paragraphs: seq<string>, heading: string -> bool): (r: Option<nat>)
    ensures r.Some? ==> (r.value < |paragraphs| && heading(paragraphs[r.value]) &&
                         forall k :: 0 <= k < r.value ==> !heading(paragraphs[k]))
    ensures r.None? ==> forall k :: 0 <= k < |paragraphs| ==> !heading(paragraphs[k])
  {
    if paragraphs == [] then None
    else if heading(paragraphs[0]) then Some(0)
    else
      var r := FirstHeading(paragraphs[1..], heading);
      if r.Some? then Some(r.value + 1) else None
  }

  /** The latest of the first `n` pages that has a heading paragraph. */
  function LatestPage(pages: seq<string>, split: string -> seq<string>, heading: string -> bool,
                      n: nat): (r: Option<nat>)
    requires n <= |pages|
    ensures r.Some? ==> (r.value < n && FirstHeading(split(pages[r.value]), heading).Some? &&
                         forall p :: r.value < p < n ==> FirstHeading(split(pages[p]), heading).None?)
    ensures r.None? ==> forall p :: 0 <= p < n ==> FirstHeading(split(pages[p]), heading).None?
  {
    if n == 0 then None
    else if FirstHeading(split(pages[n - 1]), heading).Some? then Some(n - 1)
    else LatestPage(pages, split, heading, n - 1)
  }

  /** The conclusion: from the heading paragraph to the end of its page, then
      each later page, all separated by line breaks; without a heading, the
      last two pages, the only page, or "Not Found". */
  function Conclusion(pages: seq<string>, split: string -> seq<string>, heading: string -> bool): string {
    match LatestPage(pages, split, heading, |pages|)
    case Some(p) =>
      var paragraphs := split(pages[p]);
      var i := FirstHeading(paragraphs, heading).value;
      Join(paragraphs[i..] + pages[p + 1..], "\n")
    case None =>
      if |pages| >= 2 then pages[|pages| - 2] + "\n" + pages[|pages| - 1]
      else if |pages| == 1 then pages[0]
      else NotFound
  }

  // ---------------------------------------------------------------------
  // `extract_conclusion`, as the source runs it
  // ---------------------------------------------------------------------

  /** The backward page search with its flag and breaks. */
  method ExtractConclusion(pages: seq<string>, split: string -> seq<string>, heading: string -> bool)
    returns (conclusion: string)
    ensures conclusion == Conclusion(pages, split, heading)
  {
    conclusion := NotFound;
    var total := |pages|;
    var found := false;
    for pageIdx := total downto 0
      invariant !found
      invariant forall p :: pageIdx <= p < total ==> FirstHeading(split(pages[p]), heading).None?
    {
      var paragraphs := split(pages[pageIdx]);
      for i := 0 to |paragraphs|
        invariant !found
        invariant forall k :: 0 <= k < i ==> !heading(paragraphs[k])
      {
        if heading(paragraphs[i]) {
          HeadingPageFound(pages, split, heading, pageIdx, i);
          conclusion := CollectConclusion(pages, paragraphs, pageIdx, i);
          found := true;
          break;
        }
      }
      if found {
        break;
      }
    }
    if !found {
      conclusion := [];
      if total >= 2 {
        conclusion := pages[total - 2] + "\n" + pages[total - 1];
      } else if total == 1 {
        conclusion := pages[total - 1];
      } else {
        conclusion := NotFound;
      }
    }
  }

  /** The text of a found conclusion: paragraph `i` of page `p` and the rest
      of that page, then, unless `p` is the last page, each later page. */
  method CollectConclusion(pages: seq<string>, paragraphs: seq<string>, p: nat, i: nat)
    returns (text: string)
    requires p < |pages| && i < |paragraphs|
    ensures text == Join(paragraphs[i..] + pages[p + 1..], "\n")
  {
    text := RestOfPage(paragraphs, i);
    if p == |pages| - 1 {
      assert paragraphs[i..] + pages[p + 1..] == paragraphs[i..];
      return;
    }
    assert paragraphs[i..] + pages[p + 1..p + 1] == paragraphs[i..];
    for q := p + 1 to |pages|
      invariant text == Join(paragraphs[i..] + pages[p + 1..q], "\n")
    {
      PageStep(paragraphs[i..], pages, p, q);
      text := text + "\n" + pages[q];
    }
    assert pages[p + 1..|pages|] == pages[p + 1..];
  }

  /** Paragraph `i` and each later paragraph of its page, one per line. */
  method RestOfPage(paragraphs: seq<string>, i: nat) returns (text: string)
    requires i < |paragraphs|
    ensures text == Join(paragraphs[i..], "\n")
  {
    text := paragraphs[i];
    for j := i + 1 to |paragraphs|
      invariant text == Join(paragraphs[i..j], "\n")
    {
      ParagraphStep(paragraphs, i, j);
      text := text + "\n" + paragraphs[j];
    }
    assert paragraphs[i..|paragraphs|] == paragraphs[i..];
  }

  lemma ParagraphStep(paragraphs: seq<string>, i: nat, j: nat)
    requires i < j < |paragraphs|
    ensures Join(paragraphs[i..j + 1], "\n") == Join(paragraphs[i..j], "\n") + "\n" + paragraphs[j]
  {
    assert paragraphs[i..j] + [paragraphs[j]] == paragraphs[i..j + 1];
    JoinSnoc(paragraphs[i..j], paragraphs[j], "\n");
  }

  lemma PageStep(head: seq<string>, pages: seq<string>, p: nat, q: nat)
    requires head != [] && p < q < |pages|
    ensures Join(head + pages[p + 1..q + 1], "\n") == Join(head + pages[p + 1..q], "\n") + "\n" + pages[q]
  {
    assert head + pages[p + 1..q] + [pages[q]] == head + pages[p + 1..q + 1];
    JoinSnoc(head + pages[p + 1..q], pages[q], "\n");
  }

  /** A page with a heading paragraph and none on any later page is the page
      the search settles on, and its first heading paragraph the start. */
  lemma HeadingPageFound(pages: seq<string>, split: string -> seq<string>, heading: string -> bool,
                         p: nat, i: nat)
    requires p < |pages| && i < |split(pages[p])| && heading(split(pages[p])[i])
    requires forall k :: 0 <= k < i ==> !heading(split(pages[p])[k])
    requires forall q :: p < q < |pages| ==> FirstHeading(split(pages[q]), heading).None?
    ensures LatestPage(pages, split, heading, |pages|) == Some(p)
    ensures FirstHeading(split(pages[p]), heading) == Some(i)
    ensures Conclusion(pages, split, heading) == Join(split(pages[p])[i..] + pages[p + 1..], "\n")
  {
    var f := FirstHeading(split(pages[p]), heading);
    assert f == Some(i);
  }

  // ---------------------------------------------------------------------
  // What the search promises
  // ---------------------------------------------------------------------

  /** Without a heading on any page: the last two pages joined by a line
      break, the only page, or "Not Found" when there are no pages. */
  lemma ConclusionFallback(pages: seq<string>, split: string -> seq<string>, heading: string -> bool)
    requires forall p :: 0 <= p < |pages| ==> FirstHeading(split(pages[p]), heading).None?
    ensures |pages| >= 2 ==>
      Conclusion(pages, split, heading) == pages[|pages| - 2] + "\n" + pages[|pages| - 1]
    ensures |pages| == 1 ==> Conclusion(pages, split, heading) == pages[0]
    ensures pages == [] ==> Conclusion(pages, split, heading) == NotFound
  {
  }

  /** A found conclusion begins with its heading paragraph; on the last page
      it is the rest of that page, and on an earlier page the rest of the page
      followed by every later page, each on a new line. */
  lemma ConclusionLayout(pages: seq<string>, split: string -> seq<string>, heading: string -> bool,
                         p: nat, i: nat)
    requires p < |pages| && i < |split(pages[p])| && heading(split(pages[p])[i])
    requires forall k :: 0 <= k < i ==> !heading(split(pages[p])[k])
    requires forall q :: p < q < |pages| ==> FirstHeading(split(pages[q]), heading).None?
    ensures split(pages[p])[i] <= Conclusion(pages, split, heading)
    ensures p == |pages| - 1 ==> Conclusion(pages, split, heading) == Join(split(pages[p])[i..], "\n")
    ensures p < |pages| - 1 ==>
      Conclusion(pages, split, heading) == Join(split(pages[p])[i..], "\n") + "\n" + Join(pages[p + 1..], "\n")
  {
    var paragraphs := split(pages[p]);
    HeadingPageFound(pages, split, heading, p, i);
    if p == |pages| - 1 {
      assert paragraphs[i..] + pages[p + 1..] == paragraphs[i..];
    } else {
      JoinAppend(paragraphs[i..], pages[p + 1..], "\n");
    }
    JoinHead(paragraphs[i..] + pages[p + 1..], "\n");
  }

  lemma JoinHead(parts: seq<string>, sep: string)
    requires parts != []
    ensures parts[0] <= Join(parts, sep)
  {
  }

  // ---------------------------------------------------------------------
  // `extract_case_details`
  // ---------------------------------------------------------------------

  /** `extract_case_details` on what the PDF library read from the pages. */
  function ExtractCaseDetails(raw: Result<seq<string>>, split: string -> seq<string>, heading: string -> bool): Record {
    var pages := TextByPage(raw);
    if pages == [] then [(ErrorKey, Str("No text extracted from PDF"))]
    else [(ConclusionKey, Str(Conclusion(pages, split, heading)))]
  }

  /** The record has one key: the error when the PDF could not be read or
      every page is blank, the conclusion of the stripped pages otherwise,
      which then has at least one page to fall back on. */
  lemma CaseDetailsCases(raw: Result<seq<string>>, split: string -> seq<string>, heading: string -> bool)
    ensures raw.Failure? ==>
      ExtractCaseDetails(raw, split, heading) == [(ErrorKey, Str("No text extracted from PDF"))]
    ensures raw.Success? && (forall k :: 0 <= k < |raw.value| ==> Strip(raw.value[k]) == []) ==>
      ExtractCaseDetails(raw, split, heading) == [(ErrorKey, Str("No text extracted from PDF"))]
    ensures raw.Success? && (exists k :: 0 <= k < |raw.value| && Strip(raw.value[k]) != []) ==>
      |StripAll(raw.value)| >= 1 &&
      ExtractCaseDetails(raw, split, heading) == [(ConclusionKey, Str(Conclusion(StripAll(raw.value), split, heading)))]
  {
  }
}
