/** Program 11, `extract_case_result`: the outcome of a judgment, read from
    its last fifty sentences.  An explicit "Result of the case:" marker wins;
    otherwise the sentences that state an outcome are quoted; otherwise the
    last few sentences that are not citations stand in.  The outcome keyword
    patterns and the citation indicators are regular expressions and are
    given as predicates; the sentence split and the explicit marker are
    literal patterns and are written out. */
module CaseResult {
  import opened Text
  import opened Records

  const ResultKey := "case_result"
  const NoModel := "spaCy model 'en_core_web_sm' not loaded"
  const NoText := "No text extracted from PDF"
  const NotFound := "Not Found"
  const Prefix := "Result of the case: "
  const WindowSize := 50
  const FallbackSize := 4

  function Min(a: nat, b: nat): nat {
    if a < b then a else b
  }

  // ---------------------------------------------------------------------
  // `extract_text_from_pdf`
  // ---------------------------------------------------------------------

  /** Each page's text followed by a line break. */
  function PagesText(pages: seq<string>): string {
    if pages == [] then [] else pages[0] + "\n" + PagesText(pages[1..])
  }

  /** The stripped text of the document, or "" when it could not be read. */
  function PdfText(raw: Result<seq<string>>): string {
    if raw.Failure? then [] else Strip(PagesText(raw.value))
  }

  // ---------------------------------------------------------------------
  // The window
  // ---------------------------------------------------------------------

  /** `sentences[-50:]` when there are more than fifty, else all of them. */
  function Window(sentences: seq<string>): (w: seq<string>)
    ensures |w| == Min(WindowSize, |sentences|)
    ensures w == sentences[|sentences| - |w|..]
  {
    if |sentences| > WindowSize then sentences[|sentences| - WindowSize..] else sentences
  }

  // ---------------------------------------------------------------------
  // The explicit marker `\bResult\s+of\s+the\s+case:\b`, ignoring case
  // ---------------------------------------------------------------------

  /** The marker, lower-cased, with each `\s+` written as one space. */
  const Marker := "result of the case:"

  /** Matching `pattern[j..]` at `i`, ignoring case, a space standing for a
      run of one or more whitespace characters: the end of the match. */
  function PhraseEnd(s: string, i: nat, pattern: string, j: nat): (r: Option<nat>)
    requires i <= |s| && j <= |pattern|
    ensures r.Some? ==> i <= r.value <= |s|
    ensures r.Some? && j < |pattern| && pattern[|pattern| - 1] != ' ' ==>
      i < r.value && LowerChar(s[r.value - 1]) == pattern[|pattern| - 1]
    decreases |pattern| - j
  {
    if j == |pattern| then Some(i)
    else if pattern[j] == ' ' then
      var k := SkipSpaces(s, i);
      if k == i then None else PhraseEnd(s, k, pattern, j + 1)
    else if i < |s| && LowerChar(s[i]) == pattern[j] then PhraseEnd(s, i + 1, pattern, j + 1)
    else None
  }

  /** The end of a marker match starting at `i`: a word boundary before
      "Result" and, when `wordAfter` holds as the trailing `\b` of the
      source demands (':' not being a word character), a word character
      right after the colon. */
  function MarkerAt(s: string, i: nat, pattern: string, wordAfter: bool): (r: Option<nat>)
    requires i <= |s| && EndsWithColon(pattern)
    ensures r.Some? ==> i < r.value <= |s| && s[r.value - 1] == ':'
    ensures r.Some? && wordAfter ==> r.value < |s| && IsWordChar(s[r.value])
    ensures r.Some? <==>
      ((i == 0 || !IsWordChar(s[i - 1])) && PhraseEnd(s, i, pattern, 0).Some? &&
       (wordAfter ==> PhraseEnd(s, i, pattern, 0).value < |s| && IsWordChar(s[PhraseEnd(s, i, pattern, 0).value])))
  {
    if i > 0 && IsWordChar(s[i - 1]) then None
    else
      var e := PhraseEnd(s, i, pattern, 0);
      if e.Some? && (wordAfter ==> e.value < |s| && IsWordChar(s[e.value])) then e
      else None
  }

  predicate EndsWithColon(pattern: string) {
    pattern != [] && pattern[|pattern| - 1] == ':'
  }

  /** `re.search`: the end of the leftmost match at or after `i`. */
  function FindMarker(s: string, i: nat, pattern: string, wordAfter: bool): (r: Option<nat>)
    requires i <= |s| && EndsWithColon(pattern)
    ensures r.Some? ==> 0 < r.value <= |s| && s[r.value - 1] == ':'
    ensures r.Some? && wordAfter ==> r.value < |s| && IsWordChar(s[r.value])
    decreases |s| - i
  {
    if MarkerAt(s, i, pattern, wordAfter).Some? then MarkerAt(s, i, pattern, wordAfter)
    else if i == |s| then None
    else FindMarker(s, i + 1, pattern, wordAfter)
  }

  /** Where the marker search in a sentence ends, if it finds the marker. */
  function MarkerEnd(sentence: string): (r: Option<nat>)
    ensures r.Some? ==> 0 < r.value < |sentence| && sentence[r.value - 1] == ':' && IsWordChar(sentence[r.value])
  {
    assert EndsWithColon(Marker);
    FindMarker(sentence, 0, Marker, true)
  }

  /** The marker without its trailing `\b`: the phrase and its colon are
      enough, whatever follows. */
  function MarkerEndIntended(sentence: string): (r: Option<nat>)
    ensures r.Some? ==> 0 < r.value <= |sentence| && sentence[r.value - 1] == ':'
  {
    assert EndsWithColon(Marker);
    FindMarker(sentence, 0, Marker, false)
  }

  /** A colon at `k - 1` directly followed by a word character. */
  predicate ColonThenWord(s: string, k: int) {
    0 < k < |s| && s[k - 1] == ':' && IsWordChar(s[k])
  }

  /** A colon followed by whitespace, or by nothing, never completes the
      marker: "Result of the case: Appeal allowed" is not an explicit
      result. */
  lemma MarkerNeedsWordAfterColon(s: string)
    requires forall k :: !ColonThenWord(s, k)
    ensures MarkerEnd(s) == None
  {
    var r := MarkerEnd(s);
    assert r.Some? ==> ColonThenWord(s, r.value);
  }

  /** Wherever the marker as written matches, the marker without the
      trailing `\b` matches too, at the same or an earlier place. */
  lemma {:induction false} FindMarkerStricter(s: string, i: nat)
    requires i <= |s|
    ensures FindMarker(s, i, Marker, true).Some? ==> FindMarker(s, i, Marker, false).Some?
    decreases |s| - i
  {
    if MarkerAt(s, i, Marker, true).None? && i < |s| {
      FindMarkerStricter(s, i + 1);
    }
  }

  lemma MarkerEndStricter(s: string)
    ensures MarkerEnd(s).Some? ==> MarkerEndIntended(s).Some?
  {
    FindMarkerStricter(s, 0);
  }

  /** A sentence that opens with the marker, a space and then a remainder
      without a colon. */
  const MarkedLine := "Result of the case: "

  /** As written, "Result of the case: " followed by any colon-free
      remainder is never an explicit result. */
  lemma MarkedLineMissed(rest: string)
    requires ':' !in rest
    ensures MarkerEnd(MarkedLine + rest) == None
  {
    var s := MarkedLine + rest;
    assert s[..20] == MarkedLine;
    assert forall j :: 0 <= j < 20 && j != 18 ==> s[j] != ':';
    assert forall j :: 20 <= j < |s| ==> s[j] == rest[j - 20];
    forall k ensures !ColonThenWord(s, k) {
    }
    MarkerNeedsWordAfterColon(s);
  }

  /** From `j` on, the pattern is lower-case letters and colons with single
      spaces between them. */
  predicate SingleSpaced(pattern: string, j: nat)
    decreases |pattern| - j
  {
    j >= |pattern| ||
    ((if pattern[j] == ' ' then j + 1 < |pattern| && PlainChar(pattern[j + 1])
      else PlainChar(pattern[j])) && SingleSpaced(pattern, j + 1))
  }

  predicate PlainChar(c: char) {
    'a' <= c <= 'z' || c == ':'
  }

  lemma MarkerSingleSpaced()
    ensures SingleSpaced(Marker, 0)
  {
    var m := "result of the case:";
    assert Marker == m;
    assert SingleSpaced(m, 19);
    assert SingleSpaced(m, 18);
    assert SingleSpaced(m, 17);
    assert SingleSpaced(m, 16);
    assert SingleSpaced(m, 15);
    assert SingleSpaced(m, 14);
    assert SingleSpaced(m, 13);
    assert SingleSpaced(m, 12);
    assert SingleSpaced(m, 11);
    assert SingleSpaced(m, 10);
    assert SingleSpaced(m, 9);
    assert SingleSpaced(m, 8);
    assert SingleSpaced(m, 7);
    assert SingleSpaced(m, 6);
    assert SingleSpaced(m, 5);
    assert SingleSpaced(m, 4);
    assert SingleSpaced(m, 3);
    assert SingleSpaced(m, 2);
    assert SingleSpaced(m, 1);
    assert SingleSpaced(m, 0);
  }

  /** Text that spells the pattern exactly, one space per space, ignoring
      case, matches it to its end. */
  lemma {:induction false} PhraseEndExact(s: string, i: nat, pattern: string, j: nat)
    requires j <= |pattern| && i + (|pattern| - j) <= |s|
    requires Lower(s[i..i + (|pattern| - j)]) == pattern[j..]
    requires SingleSpaced(pattern, j)
    ensures PhraseEnd(s, i, pattern, j) == Some(i + (|pattern| - j))
    decreases |pattern| - j
  {
    if j < |pattern| {
      var w := s[i..i + (|pattern| - j)];
      assert LowerChar(s[i]) == pattern[j] by {
        assert w[0] == s[i];
        assert Lower(w)[0] == pattern[j..][0];
      }
      assert Lower(s[i + 1..i + (|pattern| - j)]) == pattern[j + 1..] by {
        assert w[1..] == s[i + 1..i + (|pattern| - j)];
        assert pattern[j..][1..] == pattern[j + 1..];
      }
      assert pattern[j..][1..] == pattern[j + 1..];
      if pattern[j] == ' ' {
        assert LowerChar(s[i + 1]) == pattern[j + 1] by {
          LowerAt(w, 1);
        }
        assert SkipSpaces(s, i + 1) == i + 1;
      }
      PhraseEndExact(s, i + 1, pattern, j + 1);
    }
  }

  lemma MarkerLower()
    ensures Lower(MarkedLine[..19]) == Marker
  {
    LowerEq(MarkedLine[..19], Marker);
  }

  /** A sentence whose first nineteen characters lower-case to the marker
      matches the whole marker, up to its colon. */
  lemma MarkerWordsMatch(s: string)
    requires |s| >= 19 && Lower(s[..19]) == Marker
    ensures PhraseEnd(s, 0, Marker, 0) == Some(19)
  {
    assert s[0..19] == s[..19];
    assert Marker[0..] == Marker;
    MarkerSingleSpaced();
    PhraseEndExact(s, 0, Marker, 0);
  }

  /** Without the trailing `\b` the same sentence is found, the match
      ending on its colon, whatever the remainder. */
  lemma MarkedLineFound(rest: string)
    ensures MarkerEndIntended(MarkedLine + rest) == Some(19)
  {
    var s := MarkedLine + rest;
    assert s[..19] == MarkedLine[..19];
    MarkerLower();
    MarkerWordsMatch(s);
    assert MarkerAt(s, 0, Marker, false) == Some(19);
  }

  /** A marker search never ends past the sentence. */
  ghost predicate MarkerBounded(marker: string -> Option<nat>) {
    forall s :: marker(s).Some? ==> marker(s).value <= |s|
  }

  lemma MarkerEndBounded()
    ensures MarkerBounded(MarkerEnd)
  {
  }

  // ---------------------------------------------------------------------
  // The outcome, as a specification
  // ---------------------------------------------------------------------

  /** The latest window sentence that holds the marker. */
  function LatestMarked(w: seq<string>, marker: string -> Option<nat>): (r: Option<nat>)
    ensures r.Some? ==> (r.value < |w| && marker(w[r.value]).Some? &&
                         forall j :: r.value < j < |w| ==> marker(w[j]).None?)
    ensures r.None? ==> forall j :: 0 <= j < |w| ==> marker(w[j]).None?
  {
    if w == [] then None
    else if marker(w[|w| - 1]).Some? then Some(|w| - 1)
    else LatestMarked(w[..|w| - 1], marker)
  }

  /** The explicit result: what follows the marker, stripped. */
  function ExplicitText(sentence: string, marker: string -> Option<nat>): string
    requires marker(sentence).Some? && marker(sentence).value <= |sentence|
  {
    Prefix + Strip(sentence[marker(sentence).value..]) + "."
  }

  /** The window sentences that are not citations and state an outcome, in
      their original order. */
  function Matching(w: seq<string>, keyword: string -> bool, reference: string -> bool): (m: seq<string>)
    ensures |m| <= |w|
    ensures forall s :: s in m <==> s in w && !reference(s) && keyword(s)
  {
    if w == [] then []
    else (if !reference(w[0]) && keyword(w[0]) then [w[0]] else []) + Matching(w[1..], keyword, reference)
  }

  /** The window sentences that are not citations, in their original order. */
  function NonReference(w: seq<string>, reference: string -> bool): (nr: seq<string>)
    ensures |nr| <= |w|
  {
    if w == [] then []
    else (if !reference(w[0]) then [w[0]] else []) + NonReference(w[1..], reference)
  }

  lemma {:induction false} NonReferenceMembers(w: seq<string>, reference: string -> bool)
    ensures forall s :: s in NonReference(w, reference) <==> s in w && !reference(s)
  {
    if w != [] {
      NonReferenceMembers(w[1..], reference);
      assert w == [w[0]] + w[1..];
    }
  }

  /** The last (at most) four sentences that are not citations. */
  function Fallback(w: seq<string>, reference: string -> bool): (f: seq<string>)
    ensures |f| == Min(FallbackSize, |NonReference(w, reference)|)
    ensures f == NonReference(w, reference)[|NonReference(w, reference)| - |f|..]
  {
    var nr := NonReference(w, reference);
    nr[|nr| - Min(FallbackSize, |nr|)..]
  }

  function Outcome(w: seq<string>, marker: string -> Option<nat>, keyword: string -> bool,
                   reference: string -> bool): string
    requires MarkerBounded(marker)
  {
    match LatestMarked(w, marker)
    case Some(k) => ExplicitText(w[k], marker)
    case None =>
      var m := Matching(w, keyword, reference);
      if m != [] then Prefix + Join(m, ". ") + "."
      else
        var f := Fallback(w, reference);
        if f != [] then Prefix + Join(f, ". ") + "." else NotFound
  }

  /** `extract_case_result`: always the one key `case_result`. */
  function CaseResultOf(loaded: bool, raw: Result<seq<string>>, keyword: string -> bool,
                        reference: string -> bool): Record
  {
    if !loaded then [(ResultKey, Str(NoModel))]
    else
      var text := PdfText(raw);
      if text == [] then [(ResultKey, Str(NoText))]
      else
        MarkerEndBounded();
        [(ResultKey, Str(Outcome(Window(Sentences(text)), MarkerEnd, keyword, reference)))]
  }

  // ---------------------------------------------------------------------
  // `extract_case_result`, as the source runs it
  // ---------------------------------------------------------------------

  /** `list(reversed(s))`. */
  function Reversed(s: seq<string>): (r: seq<string>)
    ensures |r| == |s|
    ensures forall i :: 0 <= i < |s| ==> r[i] == s[|s| - 1 - i]
  {
    seq(|s|, i requires 0 <= i < |s| => s[|s| - 1 - i])
  }

  method ExtractCaseResult(loaded: bool, raw: Result<seq<string>>, keyword: string -> bool,
                           reference: string -> bool) returns (result: Record)
    ensures result == CaseResultOf(loaded, raw, keyword, reference)
  {
    if !loaded {
      return [(ResultKey, Str(NoModel))];
    }
    var text := PdfText(raw);
    if text == [] {
      return [(ResultKey, Str(NoText))];
    }
    var sentences := Sentences(text);
    var window := Window(sentences);
    MarkerEndBounded();
    var caseResult := DecideOutcome(window, MarkerEnd, keyword, reference);
    return [(ResultKey, Str(caseResult))];
  }

  /** The three searches over the window, in the order the source tries
      them. */
  method DecideOutcome(window: seq<string>, marker: string -> Option<nat>, keyword: string -> bool,
                       reference: string -> bool) returns (caseResult: string)
    requires MarkerBounded(marker)
    ensures caseResult == Outcome(window, marker, keyword, reference)
  {
    var explicit := FindExplicit(window, marker);
    if explicit.Some? {
      return explicit.value;
    }
    var matching, found := CollectMatching(window, keyword, reference);
    if found {
      caseResult := Prefix + Join(matching, ". ") + ".";
    } else {
      var nonReference := NonReference(Reversed(window), reference);
      var lastFew := nonReference[..Min(FallbackSize, |nonReference|)];
      FallbackByReversal(window, reference);
      if lastFew != [] {
        caseResult := Prefix + Join(Reversed(lastFew), ". ") + ".";
      } else {
        caseResult := NotFound;
      }
    }
  }

  /** The backward search for the explicit marker. */
  method FindExplicit(w: seq<string>, marker: string -> Option<nat>) returns (r: Option<string>)
    requires MarkerBounded(marker)
    ensures r.Some? <==> LatestMarked(w, marker).Some?
    ensures r.Some? ==> r.value == ExplicitText(w[LatestMarked(w, marker).value], marker)
  {
    r := None;
    for k := |w| downto 0
      invariant forall j :: k <= j < |w| ==> marker(w[j]).None?
    {
      var e := marker(w[k]);
      if e.Some? {
        LatestMarkedIs(w, marker, k);
        r := Some(Prefix + Strip(w[k][e.value..]) + ".");
        return;
      }
    }
  }

  /** The backward collection of outcome sentences, reversed at the end. */
  method CollectMatching(w: seq<string>, keyword: string -> bool, reference: string -> bool)
    returns (matching: seq<string>, found: bool)
    ensures matching == Matching(w, keyword, reference)
    ensures found <==> matching != []
  {
    var collected: seq<string> := [];
    found := false;
    for k := |w| downto 0
      invariant Reversed(collected) == Matching(w[k..], keyword, reference)
      invariant found <==> collected != []
    {
      assert w[k..] == [w[k]] + w[k + 1..];
      if reference(w[k]) {
        continue;
      }
      var matched := keyword(w[k]);
      if matched {
        assert Reversed(collected + [w[k]]) == [w[k]] + Reversed(collected);
        collected := collected + [w[k]];
        found := true;
      }
    }
    assert w[0..] == w;
    matching := Reversed(collected);
  }

  lemma LatestMarkedIs(w: seq<string>, marker: string -> Option<nat>, k: nat)
    requires k < |w| && marker(w[k]).Some?
    requires forall j :: k < j < |w| ==> marker(w[j]).None?
    ensures LatestMarked(w, marker) == Some(k)
  {
  }

  /** Taking the first four non-citations of the reversed window and
      reversing them back gives the last four non-citations in order. */
  lemma FallbackByReversal(w: seq<string>, reference: string -> bool)
    ensures var nr := NonReference(Reversed(w), reference);
      Reversed(nr[..Min(FallbackSize, |nr|)]) == Fallback(w, reference)
  {
    NonReferenceReversed(w, reference);
    var nr := NonReference(w, reference);
    var n := Min(FallbackSize, |nr|);
    assert Reversed(Reversed(nr)[..n]) == nr[|nr| - n..];
  }

  /** Dropping citations commutes with reversal. */
  lemma {:induction false} NonReferenceReversed(w: seq<string>, reference: string -> bool)
    ensures NonReference(Reversed(w), reference) == Reversed(NonReference(w, reference))
  {
    if w != [] {
      var head := if !reference(w[0]) then [w[0]] else [];
      var rest := NonReference(w[1..], reference);
      assert Reversed(w) == Reversed(w[1..]) + [w[0]] by {
        ReversedAppend([w[0]], w[1..]);
        assert [w[0]] + w[1..] == w;
        assert Reversed([w[0]]) == [w[0]];
      }
      calc {
        NonReference(Reversed(w), reference);
        { NonReferenceSnoc(Reversed(w[1..]), w[0], reference); }
        NonReference(Reversed(w[1..]), reference) + head;
        { NonReferenceReversed(w[1..], reference); }
        Reversed(rest) + head;
        { ReversedAppend(head, rest); assert Reversed(head) == head; }
        Reversed(head + rest);
      }
    }
  }

  lemma ReversedAppend(a: seq<string>, b: seq<string>)
    ensures Reversed(a + b) == Reversed(b) + Reversed(a)
  {
  }

  lemma {:induction false} NonReferenceSnoc(w: seq<string>, s: string, reference: string -> bool)
    ensures NonReference(w + [s], reference) ==
            NonReference(w, reference) + (if !reference(s) then [s] else [])
  {
    if w != [] {
      assert (w + [s])[1..] == w[1..] + [s];
      NonReferenceSnoc(w[1..], s, reference);
    } else {
      assert NonReference([s], reference) == (if !reference(s) then [s] else []) + NonReference([], reference);
    }
  }

  // ---------------------------------------------------------------------
  // What the outcome promises
  // ---------------------------------------------------------------------

  /** The latest sentence holding the marker decides the result. */
  lemma OutcomeExplicit(w: seq<string>, marker: string -> Option<nat>, keyword: string -> bool, reference: string -> bool, k: nat)
    requires MarkerBounded(marker)
    requires k < |w| && marker(w[k]).Some?
    requires forall j :: k < j < |w| ==> marker(w[j]).None?
    ensures Outcome(w, marker, keyword, reference) == ExplicitText(w[k], marker)
  {
    LatestMarkedIs(w, marker, k);
  }

  /** Without a marker, the outcome sentences are quoted in order, joined
      with ". ". */
  lemma OutcomeMatching(w: seq<string>, marker: string -> Option<nat>, keyword: string -> bool, reference: string -> bool)
    requires MarkerBounded(marker)
    requires forall j :: 0 <= j < |w| ==> marker(w[j]).None?
    requires exists j :: 0 <= j < |w| && !reference(w[j]) && keyword(w[j])
    ensures Outcome(w, marker, keyword, reference) == Prefix + Join(Matching(w, keyword, reference), ". ") + "."
  {
    var j :| 0 <= j < |w| && !reference(w[j]) && keyword(w[j]);
    assert w[j] in Matching(w, keyword, reference);
    NoMarker(w, marker);
  }

  lemma NoMarker(w: seq<string>, marker: string -> Option<nat>)
    requires forall j :: 0 <= j < |w| ==> marker(w[j]).None?
    ensures LatestMarked(w, marker) == None
  {
  }

  /** Without a marker and without an outcome sentence, the last four (or
      fewer) sentences that are not citations, or "Not Found" when every
      sentence is a citation. */
  lemma OutcomeFallback(w: seq<string>, marker: string -> Option<nat>, keyword: string -> bool, reference: string -> bool)
    requires MarkerBounded(marker)
    requires forall j :: 0 <= j < |w| ==> marker(w[j]).None?
    requires forall j :: 0 <= j < |w| ==> reference(w[j]) || !keyword(w[j])
    ensures (exists j :: 0 <= j < |w| && !reference(w[j])) ==>
      Outcome(w, marker, keyword, reference) == Prefix + Join(Fallback(w, reference), ". ") + "."
    ensures (forall j :: 0 <= j < |w| ==> reference(w[j])) ==> Outcome(w, marker, keyword, reference) == NotFound
  {
    NoMatching(w, keyword, reference);
    NoMarker(w, marker);
    if exists j :: 0 <= j < |w| && !reference(w[j]) {
      var j :| 0 <= j < |w| && !reference(w[j]);
      NonReferenceMembers(w, reference);
      assert w[j] in NonReference(w, reference);
    } else {
      AllReferences(w, reference);
    }
  }

  lemma {:induction false} NoMatching(w: seq<string>, keyword: string -> bool, reference: string -> bool)
    requires forall j :: 0 <= j < |w| ==> reference(w[j]) || !keyword(w[j])
    ensures Matching(w, keyword, reference) == []
  {
    if w != [] {
      NoMatching(w[1..], keyword, reference);
    }
  }

  lemma {:induction false} AllReferences(w: seq<string>, reference: string -> bool)
    requires forall j :: 0 <= j < |w| ==> reference(w[j])
    ensures NonReference(w, reference) == []
  {
    if w != [] {
      AllReferences(w[1..], reference);
    }
  }

  /** The record always has the single key `case_result`: the missing-model
      message, the no-text message, or the outcome of the last fifty
      sentences of the text. */
  lemma CaseResultCases(loaded: bool, raw: Result<seq<string>>, keyword: string -> bool,
                        reference: string -> bool)
    ensures |CaseResultOf(loaded, raw, keyword, reference)| == 1
    ensures CaseResultOf(loaded, raw, keyword, reference)[0].0 == ResultKey
    ensures !loaded ==> CaseResultOf(loaded, raw, keyword, reference)[0].1 == Str(NoModel)
    ensures loaded && PdfText(raw) == [] ==> CaseResultOf(loaded, raw, keyword, reference)[0].1 == Str(NoText)
    ensures loaded && raw.Failure? ==> CaseResultOf(loaded, raw, keyword, reference)[0].1 == Str(NoText)
    ensures loaded && PdfText(raw) != [] ==>
      (MarkerBounded(MarkerEnd) &&
       CaseResultOf(loaded, raw, keyword, reference)[0].1 ==
       Str(Outcome(Window(Sentences(PdfText(raw))), MarkerEnd, keyword, reference)))
  {
    MarkerEndBounded();
  }
}
