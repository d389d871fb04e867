/** Program 10, `extract_crime_info`: two flags saying whether a judgment
    deals with crimes against children and crimes against women.  Every
    regular expression is given as a predicate on a sentence: the citation
    and legal-jargon filters (each "any of the list matches"), the patterns
    of each category in their listed order, and each category's victim
    context.  The sentence split is the literal one of the Text module. */
module CrimeInfo {
  import opened Text
  import opened Records

  const ErrorKey := "Error (Program 10)"
  const ChildrenKey := "Crime against children (Program 10)"
  const WomenKey := "Crime against women (Program 10)"

  /** The pages' text run together, stripped; "" when the PDF could not be
      read. */
  function PdfText(raw: Result<seq<string>>): string {
    if raw.Failure? then [] else Strip(Concat(raw.value))
  }

  function Concat(pages: seq<string>): string {
    if pages == [] then [] else pages[0] + Concat(pages[1..])
  }

  /** The regular expressions, as predicates on a sentence. `patterns[c]` is
      the pattern list of category `c` (children first, then women), whose
      first entry is the literal "Crime against children" (respectively
      "women") pattern; `context[c]` is that category's victim context. */
  datatype Patterns = Patterns(
    citation: string -> bool,
    jargon: string -> bool,
    patterns: seq<seq<string -> bool>>,
    context: seq<string -> bool>)

  /** A sentence that is neither a citation nor legal jargon. */
  predicate Counts(p: Patterns, s: string) {
    !p.citation(s) && !p.jargon(s)
  }

  /** Pattern `k` of category `c` sets the flag for sentence `s`: the literal
      first pattern on its own, any other only with the victim context. */
  predicate Fires(p: Patterns, c: nat, k: nat, s: string)
    requires c < |p.patterns| && c < |p.context| && k < |p.patterns[c]|
  {
    p.patterns[c][k](s) && (k == 0 || p.context[c](s))
  }

  /** One of the first `n` patterns of category `c` sets its flag for `s`. */
  predicate FiresUpTo(p: Patterns, c: nat, n: nat, s: string)
    requires c < |p.patterns| && c < |p.context| && n <= |p.patterns[c]|
  {
    exists k :: 0 <= k < n && Fires(p, c, k, s)
  }

  /** Category `c` is flagged by sentence `s`. */
  predicate Flags(p: Patterns, c: nat, s: string)
    requires c < |p.patterns| && c < |p.context|
  {
    Counts(p, s) && FiresUpTo(p, c, |p.patterns[c]|, s)
  }

  /** The flag of category `c` after the given sentences: some sentence
      flags it. */
  predicate Flagged(p: Patterns, c: nat, sentences: seq<string>)
    requires c < |p.patterns| && c < |p.context|
  {
    exists i :: 0 <= i < |sentences| && Flags(p, c, sentences[i])
  }

  /** The loops over sentences, categories and patterns, setting flags. */
  method CrimeFlags(sentences: seq<string>, p: Patterns) returns (flags: seq<bool>)
    requires |p.context| == |p.patterns|
    ensures |flags| == |p.patterns|
    ensures forall c :: 0 <= c < |flags| ==> (flags[c] <==> Flagged(p, c, sentences))
  {
    flags := seq(|p.patterns|, c => false);
    for i := 0 to |sentences|
      invariant |flags| == |p.patterns|
      invariant forall c :: 0 <= c < |flags| ==> (flags[c] <==> Flagged(p, c, sentences[..i]))
    {
      var sentence := sentences[i];
      forall c | 0 <= c < |flags|
        ensures Flagged(p, c, sentences[..i + 1]) <==> Flagged(p, c, sentences[..i]) || Flags(p, c, sentence)
      {
        FlaggedSnoc(p, c, sentences[..i], sentence);
        assert sentences[..i + 1] == sentences[..i] + [sentence];
      }
      if p.citation(sentence) {
        continue;
      }
      if p.jargon(sentence) {
        continue;
      }
      for c := 0 to |p.patterns|
        invariant |flags| == |p.patterns|
        invariant forall d :: 0 <= d < c ==> (flags[d] <==> Flagged(p, d, sentences[..i + 1]))
        invariant forall d :: c <= d < |flags| ==> (flags[d] <==> Flagged(p, d, sentences[..i]))
      {
        ghost var before := flags;
        for k := 0 to |p.patterns[c]|
          invariant |flags| == |p.patterns|
          invariant flags[c] <==> Flagged(p, c, sentences[..i]) || FiresUpTo(p, c, k, sentence)
          invariant forall d :: 0 <= d < |flags| && d != c ==> flags[d] == before[d]
        {
          FiresUpToStep(p, c, k, sentence);
          if p.patterns[c][k](sentence) {
            if k == 0 {
              flags := flags[c := true];
              continue;
            }
            if !p.context[c](sentence) {
              continue;
            }
            flags := flags[c := true];
          }
        }
      }
    }
  }

  /** `extract_crime_info`: the error entry for an empty text, otherwise the
      two flags, children first, each set exactly when some sentence sets
      it. */
  method ExtractCrimeInfo(raw: Result<seq<string>>, p: Patterns) returns (result: Record)
    requires |p.patterns| == 2 && |p.context| == 2
    ensures PdfText(raw) == [] ==> result == [(ErrorKey, Str("No text extracted from PDF"))]
    ensures PdfText(raw) != [] ==>
      result == [(ChildrenKey, Flag(Flagged(p, 0, Sentences(PdfText(raw))))),
                 (WomenKey, Flag(Flagged(p, 1, Sentences(PdfText(raw)))))]
  {
    var text := PdfText(raw);
    if text == [] {
      return [(ErrorKey, Str("No text extracted from PDF"))];
    }
    var sentences := Sentences(text);
    var flags := CrimeFlags(sentences, p);
    result := [(ChildrenKey, Flag(flags[0])), (WomenKey, Flag(flags[1]))];
  }

  // ---------------------------------------------------------------------
  // What the flags promise
  // ---------------------------------------------------------------------

  /** A flag is a disjunction over the sentences: it depends only on which
      sentences occur, not on their order or repetition. */
  lemma FlaggedMembers(p: Patterns, c: nat, sentences: seq<string>)
    requires c < |p.patterns| && c < |p.context|
    ensures Flagged(p, c, sentences) <==> exists s :: s in sentences && Flags(p, c, s)
  {
    if exists s :: s in sentences && Flags(p, c, s) {
      var s :| s in sentences && Flags(p, c, s);
      var i :| 0 <= i < |sentences| && sentences[i] == s;
    }
  }

  lemma FlaggedOrderFree(p: Patterns, c: nat, a: seq<string>, b: seq<string>)
    requires c < |p.patterns| && c < |p.context|
    requires forall s :: s in a <==> s in b
    ensures Flagged(p, c, a) == Flagged(p, c, b)
  {
    FlaggedMembers(p, c, a);
    FlaggedMembers(p, c, b);
  }

  /** More text never clears a flag, and a citation or legal-jargon sentence
      never sets one. */
  lemma FlaggedAppend(p: Patterns, c: nat, a: seq<string>, b: seq<string>)
    requires c < |p.patterns| && c < |p.context|
    ensures Flagged(p, c, a + b) <==> Flagged(p, c, a) || Flagged(p, c, b)
  {
    FlaggedMembers(p, c, a);
    FlaggedMembers(p, c, b);
    FlaggedMembers(p, c, a + b);
  }

  lemma NonCountingIgnored(p: Patterns, c: nat, a: seq<string>, s: string, b: seq<string>)
    requires c < |p.patterns| && c < |p.context|
    requires !Counts(p, s)
    ensures Flagged(p, c, a + [s] + b) == Flagged(p, c, a + b)
  {
    FlaggedAppend(p, c, a + [s], b);
    FlaggedAppend(p, c, a, [s]);
    FlaggedAppend(p, c, a, b);
    FlaggedMembers(p, c, [s]);
  }

  /** In a sentence that counts, the literal first pattern sets its flag on
      its own; without the victim context, nothing else does. */
  lemma LeadPatternAlone(p: Patterns, c: nat, s: string)
    requires c < |p.patterns| && c < |p.context| && p.patterns[c] != []
    requires Counts(p, s)
    ensures p.patterns[c][0](s) ==> Flags(p, c, s)
    ensures !p.context[c](s) ==> (Flags(p, c, s) <==> p.patterns[c][0](s))
  {
    if p.patterns[c][0](s) {
      assert Fires(p, c, 0, s);
    }
    if !p.context[c](s) && Flags(p, c, s) {
      var k :| 0 <= k < |p.patterns[c]| && Fires(p, c, k, s);
      assert k == 0;
    }
  }

  lemma FiresUpToStep(p: Patterns, c: nat, k: nat, s: string)
    requires c < |p.patterns| && c < |p.context| && k < |p.patterns[c]|
    ensures FiresUpTo(p, c, k + 1, s) <==> FiresUpTo(p, c, k, s) || Fires(p, c, k, s)
  {
    if FiresUpTo(p, c, k + 1, s) && !Fires(p, c, k, s) {
      var j :| 0 <= j < k + 1 && Fires(p, c, j, s);
      assert j < k;
    }
  }

  lemma FlaggedSnoc(p: Patterns, c: nat, sentences: seq<string>, s: string)
    requires c < |p.patterns| && c < |p.context|
    ensures Flagged(p, c, sentences + [s]) <==> Flagged(p, c, sentences) || Flags(p, c, s)
  {
    var t := sentences + [s];
    if Flagged(p, c, t) && !Flags(p, c, s) {
      var i :| 0 <= i < |t| && Flags(p, c, t[i]);
      assert i < |sentences| && t[i] == sentences[i];
    }
    if Flagged(p, c, sentences) {
      var i :| 0 <= i < |sentences| && Flags(p, c, sentences[i]);
      assert t[i] == sentences[i];
    }
    if Flags(p, c, s) {
      assert t[|sentences|] == s;
    }
  }
}
