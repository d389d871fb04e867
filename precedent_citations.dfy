/** Program 9, `extract_citations`: the precedent citations a judgment
    relies on -- the paragraphs under its "List of Citations" (or "Case Law
    Cited") heading, or, when there is no such list, the paragraphs that read
    like citations, the most citation-like first.  The regular expressions
    that classify whole lines and paragraphs are inputs (the predicates they
    decide); the five citation keywords are literal patterns and are coded
    here. */
module PrecedentCitations {
  import opened Text
  import opened Records
  import CaseDetails

  const CitationsKey := "Precedent Citations (Program 9)"
  const NoText := "No text extracted from PDF"
  const NoParagraphs := "No paragraphs extracted from PDF"
  const NotFound := "Not found"

  /** The regular expressions, as the predicates they decide. */
  datatype Patterns = Patterns(
    noise: string -> bool,         // a reporter, cause-title, bench, counsel or "ORDER" line
    header: string -> bool,        // a line that starts like the head of the report
    split: string -> seq<string>,  // `re.split` into paragraphs, before stripping
    heading: string -> bool,       // "List of Citations and Other References" / "Case Law Cited"
    numbered: string -> bool,      // a paragraph that starts with "<n>. "
    stop: string -> bool,          // a paragraph that starts the next section
    unwanted: string -> bool,      // "List of Acts" / "List of Keywords"
    writ: string -> bool)          // "Writ Petition" / "Civil Original Jurisdiction"

  // ---------------------------------------------------------------------
  // `extract_text_from_pdf`: the head of the first page is dropped
  // ---------------------------------------------------------------------

  function Quiet(noise: string -> bool): string -> bool {
    line => !noise(line)
  }

  /** The lines from the first one that does not look like the head of the
      report on. */
  function DropHeader(lines: seq<string>, header: string -> bool): (r: seq<string>)
    ensures |r| <= |lines| && r == lines[|lines| - |r|..]
    ensures r != [] ==> !header(r[0])
    ensures forall k :: 0 <= k < |lines| - |r| ==> header(lines[k])
  {
    if lines == [] then []
    else if header(lines[0]) then DropHeader(lines[1..], header)
    else lines
  }

  /** The kept lines of the first page: every noise line is dropped, and so
      is every head-like line before the first line that is kept. */
  function FirstPageLines(lines: seq<string>, p: Patterns): seq<string> {
    DropHeader(Filter(lines, Quiet(p.noise)), p.header)
  }

  lemma {:induction false} DropHeaderSnoc(lines: seq<string>, line: string, header: string -> bool)
    ensures DropHeader(lines + [line], header) ==
      if DropHeader(lines, header) == [] then (if header(line) then [] else [line])
      else DropHeader(lines, header) + [line]
  {
    if lines != [] {
      assert (lines + [line])[1..] == lines[1..] + [line];
      DropHeaderSnoc(lines[1..], line, header);
    }
  }

  /** One more line: a noise line changes nothing, a head-like line is
      dropped while nothing is kept, any other line is kept. */
  lemma FirstPageStep(lines: seq<string>, k: nat, p: Patterns)
    requires k < |lines|
    ensures var before := FirstPageLines(lines[..k], p);
      FirstPageLines(lines[..k + 1], p) ==
        if p.noise(lines[k]) then before
        else if before == [] && p.header(lines[k]) then []
        else before + [lines[k]]
  {
    var line := lines[k];
    var f := Filter(lines[..k], Quiet(p.noise));
    assert lines[..k + 1] == lines[..k] + [line];
    FilterSnoc(lines[..k], line, Quiet(p.noise));
    if p.noise(line) {
      assert !Quiet(p.noise)(line);
      assert f + [] == f;
    } else {
      assert Quiet(p.noise)(line);
      assert Filter(lines[..k + 1], Quiet(p.noise)) == f + [line];
      DropHeaderSnoc(f, line, p.header);
    }
  }

  /** The line loop of the first page, with its `skip` flag. */
  method FilterFirstPage(lines: seq<string>, p: Patterns) returns (kept: seq<string>)
    ensures kept == FirstPageLines(lines, p)
  {
    kept := [];
    var skip := true;
    for k := 0 to |lines|
      invariant kept == FirstPageLines(lines[..k], p)
      invariant skip <==> kept == []
    {
      var line := lines[k];
      FirstPageStep(lines, k, p);
      if p.noise(line) {
        continue;
      }
      if !skip || !p.header(line) {
        skip := false;
        kept := kept + [line];
      }
    }
    assert lines[..|lines|] == lines;
  }

  /** No noise line survives, the first kept line does not look like a head
      line, and a line that is neither is always kept. */
  lemma FirstPageKeeps(lines: seq<string>, p: Patterns)
    ensures forall l :: l in FirstPageLines(lines, p) ==> l in lines && !p.noise(l)
    ensures FirstPageLines(lines, p) != [] ==> !p.header(FirstPageLines(lines, p)[0])
    ensures forall l :: l in lines && !p.noise(l) && !p.header(l) ==> l in FirstPageLines(lines, p)
  {
    var f := Filter(lines, Quiet(p.noise));
    DropHeaderMembers(f, p.header);
    assert forall l :: l in f <==> l in lines && Quiet(p.noise)(l);
  }

  /** Dropping the head lines keeps every line that is not a head line and
      adds none. */
  lemma {:induction false} DropHeaderMembers(lines: seq<string>, header: string -> bool)
    ensures forall l :: l in DropHeader(lines, header) ==> l in lines
    ensures forall l :: l in lines && !header(l) ==> l in DropHeader(lines, header)
  {
    if lines != [] && header(lines[0]) {
      DropHeaderMembers(lines[1..], header);
      assert forall l :: l in lines && l != lines[0] ==> l in lines[1..];
    }
  }

  /** What page `n` adds to the text: a non-blank page with a line break
      after it; on the first page, only its kept lines. */
  function PageText(n: nat, page: string, p: Patterns): string {
    if page == [] then []
    else
      var t := if n == 0 then Join(FirstPageLines(SplitOn(page, '\n'), p), "\n") else page;
      if Strip(t) != [] then t + "\n" else []
  }

  /** The page texts of the first `n` pages, one after another. */
  function Collected(pages: seq<string>, n: nat, p: Patterns): string
    requires n <= |pages|
  {
    if n == 0 then [] else Collected(pages, n - 1, p) + PageText(n - 1, pages[n - 1], p)
  }

  /** The text of the PDF, stripped; a failure to read it gives "". */
  function PdfText(pages: Result<seq<string>>, p: Patterns): (text: string)
    ensures text == [] || (!IsSpace(text[0]) && !IsSpace(text[|text| - 1]))
  {
    if pages.Failure? then []
    else
      var t := Collected(pages.value, |pages.value|, p);
      StripIsInner(t);
      Strip(t)
  }

  /** The page loop of `extract_text_from_pdf`. */
  method ReadText(pages: Result<seq<string>>, p: Patterns) returns (text: string)
    ensures text == PdfText(pages, p)
  {
    if pages.Failure? {
      return [];
    }
    var all := pages.value;
    var acc := [];
    for n := 0 to |all|
      invariant acc == Collected(all, n, p)
    {
      var piece := ReadPage(n, all[n], p);
      acc := acc + piece;
    }
    text := Strip(acc);
  }

  /** One page of the loop: its text (the first page's kept lines), with a
      line break, unless it is blank. */
  method ReadPage(n: nat, page: string, p: Patterns) returns (piece: string)
    ensures piece == PageText(n, page, p)
  {
    piece := [];
    if page != [] {
      var t := page;
      if n == 0 {
        var kept := FilterFirstPage(SplitOn(page, '\n'), p);
        t := Join(kept, "\n");
      }
      if Strip(t) != [] {
        piece := t + "\n";
      }
    }
  }

  // ---------------------------------------------------------------------
  // `split_into_paragraphs`
  // ---------------------------------------------------------------------

  /** The paragraphs, stripped, the blank ones dropped. */
  function Paragraphs(text: string, p: Patterns): (paras: seq<string>)
    ensures forall k :: 0 <= k < |paras| ==> Inner(paras[k])
    ensures Strip(text) == [] ==> paras == []
  {
    if text == [] || Strip(text) == [] then [] else StripBlanks(p.split(text))
  }

  // ---------------------------------------------------------------------
  // Step 1: the paragraphs under the citations heading
  // ---------------------------------------------------------------------

  /** A paragraph that neither is numbered nor opens the next section. */
  predicate Continues(p: Patterns, para: string) {
    !p.numbered(para) && !p.stop(para)
  }

  /** The longest prefix of `paras` whose paragraphs all continue. */
  function Run(paras: seq<string>, p: Patterns): (r: seq<string>)
    ensures r <= paras
    ensures forall k :: 0 <= k < |r| ==> Continues(p, r[k])
    ensures |r| < |paras| ==> !Continues(p, paras[|r|])
  {
    if paras == [] || !Continues(p, paras[0]) then []
    else [paras[0]] + Run(paras[1..], p)
  }

  /** The section: the run of paragraphs right after the first heading
      paragraph, or nothing when no paragraph is a heading. */
  function Section(paras: seq<string>, p: Patterns): seq<string> {
    match CaseDetails.FirstHeading(paras, p.heading)
    case None => []
    case Some(i) => Run(paras[i + 1..], p)
  }

  /** A prefix of continuing paragraphs that stops at the end or before one
      that does not continue is the run. */
  lemma {:induction false} RunIs(xs: seq<string>, p: Patterns, n: nat)
    requires n <= |xs| && forall k :: 0 <= k < n ==> Continues(p, xs[k])
    requires n < |xs| ==> !Continues(p, xs[n])
    ensures Run(xs, p) == xs[..n]
  {
    if n > 0 {
      RunIs(xs[1..], p, n - 1);
      assert xs[..n] == [xs[0]] + xs[1..][..n - 1];
    }
  }

  /** `section` is the run right after the heading paragraph `i`: it ends at
      the end or before a paragraph that does not continue. */
  predicate RunAfter(paras: seq<string>, p: Patterns, i: nat, section: seq<string>) {
    i + 1 + |section| <= |paras| && section == paras[i + 1..i + 1 + |section|] &&
    (forall k :: i < k <= i + |section| ==> Continues(p, paras[k])) &&
    (i + 1 + |section| < |paras| ==> !Continues(p, paras[i + 1 + |section|]))
  }

  /** A non-empty section is the paragraphs right after the first heading
      paragraph, up to the end or to the first paragraph that is numbered or
      opens the next section. */
  lemma SectionFacts(paras: seq<string>, p: Patterns)
    ensures Section(paras, p) != [] ==>
      (exists i :: 0 <= i < |paras| && p.heading(paras[i]) &&
        (forall k :: 0 <= k < i ==> !p.heading(paras[k])) && RunAfter(paras, p, i, Section(paras, p)))
  {
    match CaseDetails.FirstHeading(paras, p.heading)
    case None =>
    case Some(i) =>
      RunAfterHeading(paras, p, i);
      assert p.heading(paras[i]) && RunAfter(paras, p, i, Section(paras, p));
  }

  /** The run after paragraph `i` is what RunAfter describes. */
  lemma RunAfterHeading(paras: seq<string>, p: Patterns, i: nat)
    requires i < |paras|
    ensures RunAfter(paras, p, i, Run(paras[i + 1..], p))
  {
    var xs := paras[i + 1..];
    var section := Run(xs, p);
    assert forall k :: i < k <= i + |section| ==> paras[k] == xs[k - i - 1] == section[k - i - 1];
    assert i + 1 + |section| < |paras| ==> paras[i + 1 + |section|] == xs[|section|];
  }

  /** Step 1's two loops: the first heading paragraph, then the paragraphs
      after it up to the first that does not continue. */
  method FindSection(paras: seq<string>, p: Patterns) returns (section: seq<string>)
    ensures section == Section(paras, p)
  {
    section := [];
    for i := 0 to |paras|
      invariant forall k :: 0 <= k < i ==> !p.heading(paras[k])
    {
      if p.heading(paras[i]) {
        SectionAfter(paras, p, i);
        section := ContinuingRun(paras[i + 1..], p);
        return;
      }
    }
    SectionWithoutHeading(paras, p);
  }

  /** Step 1's second loop, over the paragraphs after the heading: they are
      taken up to the first that does not continue. */
  method ContinuingRun(xs: seq<string>, p: Patterns) returns (run: seq<string>)
    ensures run == Run(xs, p)
  {
    run := [];
    for j := 0 to |xs|
      invariant run == xs[..j]
      invariant forall k :: 0 <= k < j ==> Continues(p, xs[k])
    {
      if Continues(p, xs[j]) {
        assert xs[..j + 1] == xs[..j] + [xs[j]];
        run := run + [xs[j]];
      } else {
        RunIs(xs, p, j);
        return;
      }
    }
    RunIs(xs, p, |xs|);
    assert xs[..|xs|] == xs;
  }

  /** The section follows the first heading paragraph. */
  lemma SectionAfter(paras: seq<string>, p: Patterns, i: nat)
    requires i < |paras| && p.heading(paras[i])
    requires forall k :: 0 <= k < i ==> !p.heading(paras[k])
    ensures Section(paras, p) == Run(paras[i + 1..], p)
  {
    var r := CaseDetails.FirstHeading(paras, p.heading);
    assert r.Some? && r.value == i;
  }

  lemma SectionWithoutHeading(paras: seq<string>, p: Patterns)
    requires forall k :: 0 <= k < |paras| ==> !p.heading(paras[k])
    ensures Section(paras, p) == []
  {
    assert CaseDetails.FirstHeading(paras, p.heading).None?;
  }

  // ---------------------------------------------------------------------
  // Step 2: the paragraphs that read like citations
  // ---------------------------------------------------------------------

  /** `\b<w>\b` matches at `i` (every `w` here starts and ends with a word
      character). */
  predicate WordAt(s: string, i: nat, w: string) {
    SliceIs(s, i, w) &&
    (i == 0 || !IsWordChar(s[i - 1])) && (i + |w| == |s| || !IsWordChar(s[i + |w|]))
  }

  /** `\b(w1|w2|...)\b` matches somewhere. */
  predicate AnyWord(s: string, ws: seq<string>) {
    exists k, i :: 0 <= k < |ws| && 0 <= i <= |s| && WordAt(s, i, ws[k])
  }

  predicate HasYear(s: string, open: char, close: char) {
    exists i :: 0 <= i <= |s| && YearAt(s, i, open, close)
  }

  /** `\d+\s+<tail>` matches with the digits at `i..j` and the spaces at
      `j..k`. */
  predicate ReporterAt(s: string, i: nat, j: nat, k: nat, tail: string) {
    i < j < k <= |s| && AllDigits(s[i..j]) && AllSpace(s[j..k]) && SliceIs(s, k, tail)
  }

  predicate HasReporter(s: string, tail: string) {
    exists i, j, k :: 0 <= i < j < k <= |s| && ReporterAt(s, i, j, k, tail)
  }

  /** The literal parts of the keyword patterns: the reporter abbreviations
      of `\b(SCR|SCC)\b`, the verbs of the reference pattern and the tail of
      `\d+\s+S\.C\.R\.`. */
  datatype Keywords = Keywords(reporters: seq<string>, verbs: seq<string>, tail: string)

  const Verbs: seq<string> := ["referred to", "relied on", "distinguished", "overruled", "cited"]

  /** The patterns as the source writes them: searched, case-sensitively, in
      the lower-cased paragraph. */
  const AsWritten := Keywords(["SCR", "SCC"], Verbs, "S.C.R.")

  /** The patterns as they are evidently meant: matching the lower-cased
      paragraph. */
  const Intended := Keywords(["scr", "scc"], Verbs, "s.c.r.")

  function Ind(b: bool): nat {
    if b then 1 else 0
  }

  /** `count_citation_patterns`: how many of the five keyword patterns
      occur in the lower-cased paragraph. */
  function Count(kw: Keywords, para: string): (n: nat)
    ensures n <= 5
  {
    var l := Lower(para);
    Ind(AnyWord(l, kw.reporters)) + Ind(HasYear(l, '[', ']')) + Ind(AnyWord(l, kw.verbs)) +
    Ind(HasReporter(l, kw.tail)) + Ind(HasYear(l, '(', ')'))
  }

  /** A fallback candidate: some keyword occurs, a reporter or a reference
      verb occurs, and the paragraph is neither the acts or keywords list nor
      the cause title. */
  predicate Candidate(p: Patterns, kw: Keywords, para: string) {
    var l := Lower(para);
    Count(kw, para) > 0 && (AnyWord(l, kw.reporters) || AnyWord(l, kw.verbs)) &&
    !p.unwanted(para) && !p.writ(para)
  }

  function Accepts(p: Patterns, kw: Keywords): string -> bool {
    para => Candidate(p, kw, para)
  }

  /** The candidate loop of step 2. */
  method CollectCandidates(paras: seq<string>, p: Patterns, kw: Keywords) returns (candidates: seq<string>)
    ensures candidates == Filter(paras, Accepts(p, kw))
  {
    var accepts := Accepts(p, kw);
    candidates := [];
    for k := 0 to |paras|
      invariant candidates == Filter(paras[..k], accepts)
    {
      FilterPrefixStep(paras, k, accepts);
      if accepts(paras[k]) {
        candidates := candidates + [paras[k]];
      }
    }
    assert paras[..|paras|] == paras;
  }

  /** No lower-cased text has an upper-case ASCII letter. */
  lemma LowerHasNoUpper(s: string)
    ensures forall i :: 0 <= i < |Lower(s)| ==> !('A' <= Lower(s)[i] <= 'Z')
  {
    forall i | 0 <= i < |Lower(s)| ensures !('A' <= Lower(s)[i] <= 'Z') {
      LowerAt(s, i);
    }
  }

  /** Neither `\b(SCR|SCC)\b` nor `\d+\s+S\.C\.R\.` ever matches a lower-cased
      paragraph. */
  lemma AsWrittenNeverMatches(para: string)
    ensures !AnyWord(Lower(para), AsWritten.reporters)
    ensures !HasReporter(Lower(para), AsWritten.tail)
  {
    var l := Lower(para);
    LowerHasNoUpper(para);
    assert 'S' !in l;
    LetterMissing(l, "SCR", 0);
    LetterMissing(l, "SCC", 0);
    LetterMissing(l, "S.C.R.", 0);
  }

  /** As written, a paragraph is a candidate only if it uses a reference
      verb, and it matches at most three of the five keyword patterns. */
  lemma AsWrittenNeedsVerb(p: Patterns, para: string)
    ensures Candidate(p, AsWritten, para) <==>
      AnyWord(Lower(para), Verbs) && !p.unwanted(para) && !p.writ(para)
    ensures Count(AsWritten, para) <= 3
  {
    AsWrittenNeverMatches(para);
  }

  /** A citation of the SCC reporter with no reference verb. */
  const SccCitation := "(2019) 3 SCC 45"

  const SccLowered := "(2019) 3 scc 45"

  lemma SccLower()
    ensures Lower(SccCitation) == SccLowered
  {
    LowerEq(SccCitation, SccLowered);
  }

  /** Every reference verb has an "e"; the SCC citation has none. */
  lemma SccHasNoVerb()
    ensures !AnyWord(SccLowered, Verbs)
  {
    var l := SccLowered;
    assert 'e' !in l;
    LetterMissing(l, Verbs[0], 1);
    LetterMissing(l, Verbs[1], 1);
    LetterMissing(l, Verbs[2], 11);
    LetterMissing(l, Verbs[3], 2);
    LetterMissing(l, Verbs[4], 3);
  }

  /** The SCC citation is passed over as written. */
  lemma ReporterCitationMissed(p: Patterns)
    ensures !Candidate(p, AsWritten, SccCitation)
  {
    SccLower();
    SccHasNoVerb();
    AsWrittenNeverMatches(SccCitation);
  }

  /** The SCC citation is taken as intended, unless it is in the acts or
      keywords list or the cause title. */
  lemma ReporterCitationTaken(p: Patterns)
    requires !p.unwanted(SccCitation) && !p.writ(SccCitation)
    ensures Candidate(p, Intended, SccCitation)
  {
    SccLower();
    SccWord();
    var l := Lower(SccCitation);
    assert AnyWord(l, Intended.reporters);
    assert Count(Intended, SccCitation) > 0;
  }

  /** "scc" stands as a word in the lower-cased SCC citation. */
  lemma SccWord()
    ensures AnyWord(SccLowered, Intended.reporters)
  {
    var l := SccLowered;
    var w := Intended.reporters[1];
    assert w == "scc";
    assert SliceIs(l, 9, w) by {
      assert l[9..12] == "scc";
    }
    assert !IsWordChar(l[8]) && !IsWordChar(l[12]);
    assert WordAt(l, 9, w);
  }

  // ---------------------------------------------------------------------
  // `sorted(candidates, key=..., reverse=True)`: stable, best first
  // ---------------------------------------------------------------------

  /** `a > b` on the (count, length) keys. */
  predicate Above(a: (nat, nat), b: (nat, nat)) {
    a.0 > b.0 || (a.0 == b.0 && a.1 > b.1)
  }

  function Rank(kw: Keywords): string -> (nat, nat) {
    para => (Count(kw, para), |para|)
  }

  /** No entry ranks above an entry before it. */
  predicate Descending(s: seq<string>, key: string -> (nat, nat)) {
    forall i, j :: 0 <= i < j < |s| ==> !Above(key(s[j]), key(s[i]))
  }

  /** `x` put after every entry that ranks at least as high. */
  function InsertRanked(x: string, s: seq<string>, key: string -> (nat, nat)): (r: seq<string>)
    requires Descending(s, key)
    ensures Descending(r, key)
    ensures multiset(r) == multiset(s) + multiset{x}
  {
    if s == [] then [x]
    else if Above(key(x), key(s[0])) then [x] + s
    else
      var r := InsertRanked(x, s[1..], key);
      assert forall j :: 0 <= j < |r| ==> !Above(key(r[j]), key(s[0])) by {
        forall j | 0 <= j < |r| ensures !Above(key(r[j]), key(s[0])) {
          assert r[j] in multiset(r);
          assert r[j] in multiset(s[1..]) || r[j] == x;
          if r[j] != x {
            var k :| 0 <= k < |s[1..]| && s[1..][k] == r[j];
            assert s[k + 1] == r[j];
          }
        }
      }
      assert s == [s[0]] + s[1..];
      [s[0]] + r
  }

  /** Python's stable sort by descending key. */
  function SortRanked(xs: seq<string>, key: string -> (nat, nat)): (r: seq<string>)
    ensures Descending(r, key)
    ensures multiset(r) == multiset(xs)
  {
    if xs == [] then []
    else
      assert xs == xs[..|xs| - 1] + [xs[|xs| - 1]];
      InsertRanked(xs[|xs| - 1], SortRanked(xs[..|xs| - 1], key), key)
  }

  function KeyIs(key: string -> (nat, nat), k: (nat, nat)): string -> bool {
    x => key(x) == k
  }

  lemma {:induction false} InsertStable(x: string, s: seq<string>, key: string -> (nat, nat), k: (nat, nat))
    requires Descending(s, key)
    ensures Filter(InsertRanked(x, s, key), KeyIs(key, k)) ==
      Filter(s, KeyIs(key, k)) + (if key(x) == k then [x] else [])
  {
    if s == [] {
    } else if Above(key(x), key(s[0])) {
      InsertFirst(x, s, key, k);
    } else {
      var r := InsertRanked(x, s[1..], key);
      InsertStable(x, s[1..], key, k);
      assert InsertRanked(x, s, key) == [s[0]] + r;
      assert s == [s[0]] + s[1..];
      FilterConsStep(s[0], r, s[1..], KeyIs(key, k), if key(x) == k then [x] else []);
    }
  }

  /** Putting the same entry in front of two sequences keeps their filtered
      difference. */
  lemma FilterConsStep(a: string, r: seq<string>, rest: seq<string>, q: string -> bool, t: seq<string>)
    requires Filter(r, q) == Filter(rest, q) + t
    ensures Filter([a] + r, q) == Filter([a] + rest, q) + t
  {
    FilterCons(a, r, q);
    FilterCons(a, rest, q);
    AppendAssoc(if q(a) then [a] else [], Filter(rest, q), t);
  }

  /** An entry that outranks the head goes first; no other entry has its
      key. */
  lemma InsertFirst(x: string, s: seq<string>, key: string -> (nat, nat), k: (nat, nat))
    requires Descending(s, key) && s != [] && Above(key(x), key(s[0]))
    ensures Filter([x] + s, KeyIs(key, k)) ==
      Filter(s, KeyIs(key, k)) + (if key(x) == k then [x] else [])
  {
    assert ([x] + s)[1..] == s;
    if key(x) == k {
      forall y | y in s ensures !KeyIs(key, k)(y) {
        var j :| 0 <= j < |s| && s[j] == y;
        assert j == 0 || !Above(key(s[j]), key(s[0]));
      }
      FilterNone(s, KeyIs(key, k));
    }
  }

  lemma {:induction false} FilterNone(s: seq<string>, q: string -> bool)
    requires forall y :: y in s ==> !q(y)
    ensures Filter(s, q) == []
  {
    if s != [] {
      FilterNone(s[1..], q);
    }
  }

  /** Candidates with equal keys keep their order in the judgment: for every
      key, the entries with that key are in the same order as before. */
  lemma {:induction false} SortStable(xs: seq<string>, key: string -> (nat, nat), k: (nat, nat))
    ensures Filter(SortRanked(xs, key), KeyIs(key, k)) == Filter(xs, KeyIs(key, k))
  {
    if xs != [] {
      var init := xs[..|xs| - 1];
      SortStable(init, key, k);
      InsertStable(xs[|xs| - 1], SortRanked(init, key), key, k);
      FilterLast(xs, KeyIs(key, k));
    }
  }

  // ---------------------------------------------------------------------
  // `extract_citations`
  // ---------------------------------------------------------------------

  /** The record `extract_citations` returns for the pages of the PDF, with
      the keyword patterns `kw`: `AsWritten` is the source, `Intended` the
      corrected patterns. */
  function Citations(pages: Result<seq<string>>, p: Patterns, kw: Keywords): Record {
    var text := PdfText(pages, p);
    if text == [] then [(CitationsKey, Str(NoText))]
    else
      var paras := Paragraphs(text, p);
      if paras == [] then [(CitationsKey, Str(NoParagraphs))]
      else FromParagraphs(paras, p, kw)
  }

  /** Steps 1 and 2 on the paragraphs: the section under the heading, or
      else the ranked candidates. */
  function FromParagraphs(paras: seq<string>, p: Patterns, kw: Keywords): Record {
    var section := Section(paras, p);
    if section != [] then [(CitationsKey, Str(Join(section, "\n")))]
    else
      var candidates := Filter(paras, Accepts(p, kw));
      if candidates == [] then [(CitationsKey, Str(NotFound))]
      else [(CitationsKey, Str(Join(SortRanked(candidates, Rank(kw)), "\n")))]
  }

  /** `extract_citations`, with the keyword patterns as the source writes
      them. */
  method ExtractCitations(pages: Result<seq<string>>, p: Patterns) returns (details: Record)
    ensures details == Citations(pages, p, AsWritten)
  {
    var text := ReadText(pages, p);
    if text == [] {
      return [(CitationsKey, Str(NoText))];
    }
    var paras := Paragraphs(text, p);
    if paras == [] {
      return [(CitationsKey, Str(NoParagraphs))];
    }
    details := [(CitationsKey, Str(NotFound))];
    var section := FindSection(paras, p);
    if section != [] {
      details := [(CitationsKey, Str(Join(section, "\n")))];
    } else {
      var candidates := CollectCandidates(paras, p, AsWritten);
      if candidates != [] {
        var best := SortRanked(candidates, Rank(AsWritten));
        details := [(CitationsKey, Str(Join(best, "\n")))];
      }
    }
  }

  /** The record has the one key: the no-text message, the no-paragraphs
      message, or else what the paragraphs give, which is the section under
      the citations heading when there is one. */
  lemma CitationsCases(pages: Result<seq<string>>, p: Patterns, kw: Keywords)
    ensures pages.Failure? || PdfText(pages, p) == [] ==> Citations(pages, p, kw) == [(CitationsKey, Str(NoText))]
    ensures PdfText(pages, p) != [] && Paragraphs(PdfText(pages, p), p) == [] ==>
      Citations(pages, p, kw) == [(CitationsKey, Str(NoParagraphs))]
    ensures PdfText(pages, p) != [] && Paragraphs(PdfText(pages, p), p) != [] ==>
      Citations(pages, p, kw) == FromParagraphs(Paragraphs(PdfText(pages, p), p), p, kw)
    ensures Section(Paragraphs(PdfText(pages, p), p), p) != [] ==>
      FromParagraphs(Paragraphs(PdfText(pages, p), p), p, kw) ==
        [(CitationsKey, Str(Join(Section(Paragraphs(PdfText(pages, p), p), p), "\n")))]
  {
  }

  /** Without a section and without a candidate: "Not found". */
  lemma CitationsNotFound(paras: seq<string>, p: Patterns, kw: Keywords)
    requires Section(paras, p) == []
    requires forall k :: 0 <= k < |paras| ==> !Candidate(p, kw, paras[k])
    ensures FromParagraphs(paras, p, kw) == [(CitationsKey, Str(NotFound))]
  {
    FilterNone(paras, Accepts(p, kw));
  }

  /** Without a section but with a candidate: every candidate, best ranked
      first. */
  lemma CitationsRanked(paras: seq<string>, p: Patterns, kw: Keywords, k: nat)
    requires Section(paras, p) == []
    requires k < |paras| && Candidate(p, kw, paras[k])
    ensures exists best ::
      FromParagraphs(paras, p, kw) == [(CitationsKey, Str(Join(best, "\n")))] &&
      Descending(best, Rank(kw)) && multiset(best) == multiset(Filter(paras, Accepts(p, kw)))
  {
    var candidates := Filter(paras, Accepts(p, kw));
    assert paras[k] in candidates;
    var best := SortRanked(candidates, Rank(kw));
    assert FromParagraphs(paras, p, kw) == [(CitationsKey, Str(Join(best, "\n")))];
  }

  /** A judgment of one paragraph under no heading: "Not found" when the
      paragraph is no candidate. */
  lemma SingleParagraphMissed(para: string, p: Patterns, kw: Keywords)
    requires !p.heading(para) && !Candidate(p, kw, para)
    ensures FromParagraphs([para], p, kw) == [(CitationsKey, Str(NotFound))]
  {
    var paras := [para];
    SectionWithoutHeading(paras, p);
    CitationsNotFound(paras, p, kw);
  }

  /** A judgment of one paragraph under no heading: the paragraph itself
      when it is a candidate. */
  lemma SingleParagraphTaken(para: string, p: Patterns, kw: Keywords)
    requires !p.heading(para) && Candidate(p, kw, para)
    ensures FromParagraphs([para], p, kw) == [(CitationsKey, Str(para))]
  {
    var paras := [para];
    SectionWithoutHeading(paras, p);
    var candidates := Filter(paras, Accepts(p, kw));
    assert candidates == [para];
    assert SortRanked(candidates, Rank(kw)) == [para];
    assert Join([para], "\n") == para;
  }

  /** As written, a judgment whose only paragraph is the SCC citation, under
      no heading, gives "Not found". */
  lemma ReporterCitationNotFound(p: Patterns)
    requires !p.heading(SccCitation)
    ensures FromParagraphs([SccCitation], p, AsWritten) == [(CitationsKey, Str(NotFound))]
  {
    ReporterCitationMissed(p);
    SingleParagraphMissed(SccCitation, p, AsWritten);
  }

  /** With the corrected patterns the same judgment gives the citation,
      unless it is in the acts or keywords list or the cause title. */
  lemma ReporterCitationFound(p: Patterns)
    requires !p.heading(SccCitation) && !p.unwanted(SccCitation) && !p.writ(SccCitation)
    ensures FromParagraphs([SccCitation], p, Intended) == [(CitationsKey, Str(SccCitation))]
  {
    ReporterCitationTaken(p);
    SingleParagraphTaken(SccCitation, p, Intended);
  }
}
