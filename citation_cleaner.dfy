/** Program 7, `clean_jumbled_citation`: repairs a law-report citation read
    off the first page of a judgment ("[2023] 5 S.C.R. 120"), where text
    extraction may have read digits as the letters they resemble, the page
    number may sit on the next line, or the parts may be out of place. */
module CitationCleaner {
  import opened Text
  import opened Records

  // ---------------------------------------------------------------------
  // The letter-for-digit corrections
  // ---------------------------------------------------------------------

  /** The corrections, in the dict's order: 'O' -> '0', 'I' -> '1',
      'T' -> '7'. */
  const Corrections: seq<(char, char)> := [('O', '0'), ('I', '1'), ('T', '7')]

  /** `s.replace(wrong, right)` for one character. */
  function Replace(s: string, wrong: char, right: char): (r: string)
    ensures |r| == |s|
    ensures forall i :: 0 <= i < |s| ==> r[i] == (if s[i] == wrong then right else s[i])
  {
    if s == [] then [] else [if s[0] == wrong then right else s[0]] + Replace(s[1..], wrong, right)
  }

  /** A character after the first `k` corrections, applied in turn. */
  function FixedUpTo(k: nat, c: char): char
    requires k <= |Corrections|
  {
    if k == 0 then c
    else
      var d := FixedUpTo(k - 1, c);
      if d == Corrections[k - 1].0 then Corrections[k - 1].1 else d
  }

  /** A character as the corrections leave it. */
  function Fixed(c: char): (d: char)
    ensures d != 'O' && d != 'I' && d != 'T'
    ensures c != 'O' && c != 'I' && c != 'T' ==> d == c
  {
    if c == 'O' then '0' else if c == 'I' then '1' else if c == 'T' then '7' else c
  }

  /** Applying the whole table in turn is `Fixed`. */
  lemma FixedByTable(c: char)
    ensures FixedUpTo(|Corrections|, c) == Fixed(c)
  {
    var afterO := FixedUpTo(1, c);
    var afterI := FixedUpTo(2, c);
    assert FixedUpTo(0, c) == c;
  }

  /** The text with every 'O', 'I' and 'T' replaced by the digit it
      resembles. */
  function Corrected(s: string): (r: string)
    ensures |r| == |s| && forall i :: 0 <= i < |s| ==> r[i] == Fixed(s[i])
  {
    seq(|s|, i requires 0 <= i < |s| => Fixed(s[i]))
  }

  /** The correction loop: one `replace` per entry of the table. */
  method Correct(text: string) returns (cleaned: string)
    ensures cleaned == Corrected(text)
  {
    cleaned := text;
    for k := 0 to |Corrections|
      invariant |cleaned| == |text|
      invariant forall i :: 0 <= i < |text| ==> cleaned[i] == FixedUpTo(k, text[i])
    {
      cleaned := Replace(cleaned, Corrections[k].0, Corrections[k].1);
    }
    forall i | 0 <= i < |text| ensures cleaned[i] == Fixed(text[i]) {
      FixedByTable(text[i]);
    }
  }

  /** The corrected text has no 'O', 'I' or 'T' left, and correcting it
      again changes nothing. */
  lemma CorrectedFacts(s: string)
    ensures 'O' !in Corrected(s) && 'I' !in Corrected(s) && 'T' !in Corrected(s)
    ensures Corrected(Corrected(s)) == Corrected(s)
  {
  }

  // ---------------------------------------------------------------------
  // The citation shapes
  // ---------------------------------------------------------------------

  /** The reporters the patterns name. */
  const Reporters: seq<string> := ["S.C.R.", "SCC", "AIR", "INSC"]

  /** The first of `reps` that occurs at `i` (the alternation tries them in
      order). */
  function ReporterAt(s: string, i: nat, reps: seq<string>): (r: Option<nat>)
    ensures r.Some? ==> r.value < |reps| && SliceIs(s, i, reps[r.value])
    ensures r.None? ==> forall k :: 0 <= k < |reps| ==> !SliceIs(s, i, reps[k])
  {
    if reps == [] then None
    else if SliceIs(s, i, reps[0]) then Some(0)
    else
      var r := ReporterAt(s, i, reps[1..]);
      if r.Some? then Some(r.value + 1) else None
  }

  /** Where the parts of a citation head lie: the volume at `volume..page`
      ... the reporter at `reporter..end`. */
  datatype Head = Head(volume: nat, volumeEnd: nat, reporter: nat, reporterEnd: nat)

  /** `\[\d{4}\]\s*\d+\s*(S\.C\.R\.|SCC|AIR|INSC)` matched at `i`. */
  function HeadAt(s: string, i: nat, reps: seq<string>): (r: Option<Head>)
    ensures r.Some? ==>
      YearAt(s, i, '[', ']') && i + 6 <= r.value.volume < r.value.volumeEnd <= r.value.reporter &&
      r.value.reporter < r.value.reporterEnd <= |s| &&
      AllSpace(s[i + 6..r.value.volume]) && AllDigits(s[r.value.volume..r.value.volumeEnd]) &&
      AllSpace(s[r.value.volumeEnd..r.value.reporter]) && s[r.value.reporter..r.value.reporterEnd] in reps
  {
    if !YearAt(s, i, '[', ']') then None
    else
      var a := SkipSpaces(s, i + 6);
      var b := SkipDigits(s, a);
      if a == b then None
      else
        var c := SkipSpaces(s, b);
        var k := ReporterAt(s, c, reps);
        if k.None? || reps[k.value] == [] then None
        else Some(Head(a, b, c, c + |reps[k.value]|))
  }

  /** Python's `$`: the end of the text, or just before a final line
      break. */
  predicate AtEnd(s: string, j: nat) {
    j == |s| || (j + 1 == |s| && s[j] == '\n')
  }

  /** `re.match(r"\[\d{4}\]\s*\d+\s*(?:S\.C\.R\.|SCC|AIR|INSC)\s*\d+$", s)`. */
  predicate FullForm(s: string) {
    var h := HeadAt(s, 0, Reporters);
    h.Some? &&
    var a := SkipSpaces(s, h.value.reporterEnd);
    var b := SkipDigits(s, a);
    a < b && AtEnd(s, b)
  }

  /** The same without the page: the head and then the end. */
  predicate PartialForm(s: string) {
    var h := HeadAt(s, 0, Reporters);
    h.Some? && AtEnd(s, h.value.reporterEnd)
  }

  /** `re.search(r"^\d+", s)`: the leading digits, "" when there are
      none. */
  function LeadingDigits(s: string): (d: string)
    ensures d <= s && AllDigits(d) && (|d| == |s| || !IsDigit(s[|d|]))
  {
    s[..SkipDigits(s, 0)]
  }

  /** The leftmost head at or after `i`. */
  function FindHead(s: string, i: nat, reps: seq<string>): (r: Option<nat>)
    ensures r.Some? ==> i <= r.value && HeadAt(s, r.value, reps).Some?
    ensures r.Some? ==> forall j :: i <= j < r.value ==> HeadAt(s, j, reps).None?
    ensures r.None? ==> forall j :: i <= j ==> HeadAt(s, j, reps).None?
    decreases |s| - i
  {
    if i + 6 > |s| then None
    else if HeadAt(s, i, reps).Some? then Some(i)
    else FindHead(s, i + 1, reps)
  }

  /** `f"[{year}] {volume} {reporter} {page}"`. */
  function Render(year: string, volume: string, reporter: string, page: string): string {
    "[" + year + "] " + volume + " " + reporter + " " + page
  }

  /** The repair from the original line: a head without page takes the
      line's leading number as page; otherwise the first head in the line is
      rebuilt with that number.  Nothing without a leading number. */
  function FromOriginal(c: string, oc: string): Option<string> {
    var page := LeadingDigits(oc);
    if page == [] then None
    else if PartialForm(c) then Some(c + " " + page)
    else
      var i := FindHead(oc, 0, Reporters);
      if i.None? then None
      else
        var h := HeadAt(oc, i.value, Reporters).value;
        Some(Render(oc[i.value + 1..i.value + 5], oc[h.volume..h.volumeEnd], oc[h.reporter..h.reporterEnd], page))
  }

  // ---------------------------------------------------------------------
  // The last fallback: the parts searched one by one
  // ---------------------------------------------------------------------

  /** The leftmost `\[\d{4}\]` at or after `i`. */
  function FindYear(s: string, i: nat): (r: Option<nat>)
    ensures r.Some? ==> i <= r.value && YearAt(s, r.value, '[', ']')
    ensures r.Some? ==> forall j :: i <= j < r.value ==> !YearAt(s, j, '[', ']')
    ensures r.None? ==> forall j :: i <= j ==> !YearAt(s, j, '[', ']')
    decreases |s| - i
  {
    if i + 6 > |s| then None
    else if YearAt(s, i, '[', ']') then Some(i)
    else FindYear(s, i + 1)
  }

  /** `\b(\d+)\b` matches at `j`: a whole number, not part of a word. */
  predicate NumberAt(s: string, j: nat) {
    j < |s| && IsDigit(s[j]) && (j == 0 || !IsWordChar(s[j - 1])) &&
    (SkipDigits(s, j) == |s| || !IsWordChar(s[SkipDigits(s, j)]))
  }

  /** The leftmost whole number at or after `i`. */
  function FindNumber(s: string, i: nat): (r: Option<nat>)
    ensures r.Some? ==> i <= r.value && NumberAt(s, r.value)
    ensures r.Some? ==> forall j :: i <= j < r.value ==> !NumberAt(s, j)
    ensures r.None? ==> forall j :: i <= j ==> !NumberAt(s, j)
    decreases |s| - i
  {
    if i >= |s| then None
    else if NumberAt(s, i) then Some(i)
    else FindNumber(s, i + 1)
  }

  /** The number that starts at `j`. */
  function NumberFrom(s: string, j: nat): string
    requires j <= |s|
  {
    s[j..SkipDigits(s, j)]
  }

  /** `w` occurs at `i` when case is ignored. */
  predicate FoldAt(s: string, i: nat, w: string) {
    i + |w| <= |s| && forall m :: 0 <= m < |w| ==> LowerChar(s[i + m]) == LowerChar(w[m])
  }

  /** The first of `reps` that occurs at `i`, case ignored. */
  function FoldReporterAt(s: string, i: nat, reps: seq<string>): (r: Option<nat>)
    ensures r.Some? ==> r.value < |reps| && FoldAt(s, i, reps[r.value])
    ensures r.None? ==> forall k :: 0 <= k < |reps| ==> !FoldAt(s, i, reps[k])
  {
    if reps == [] then None
    else if FoldAt(s, i, reps[0]) then Some(0)
    else
      var r := FoldReporterAt(s, i, reps[1..]);
      if r.Some? then Some(r.value + 1) else None
  }

  /** `re.search(r"(S\.C\.R\.|SCC|AIR|INSC)", s, re.IGNORECASE).group(1)`:
      the leftmost reporter, as it is written in `s`. */
  function FindReporter(s: string, i: nat, reps: seq<string>): (r: Option<string>)
    ensures r.Some? ==> exists j, k :: i <= j && 0 <= k < |reps| && FoldAt(s, j, reps[k]) && r.value == s[j..j + |reps[k]|]
    ensures r.None? ==> forall j, k :: i <= j && 0 <= k < |reps| && reps[k] != [] ==> !FoldAt(s, j, reps[k])
    decreases |s| - i
  {
    if i >= |s| then None
    else
      var k := FoldReporterAt(s, i, reps);
      if k.Some? then Some(s[i..i + |reps[k.value]|]) else FindReporter(s, i + 1, reps)
  }

  /** `re.search(r"\b(\d+)$", s)`: the number that ends the text (or its
      last line break), when it is a whole number. */
  function TrailingNumber(s: string): (r: Option<string>)
    ensures r.Some? ==> r.value != [] && AllDigits(r.value)
  {
    var e := if s != [] && s[|s| - 1] == '\n' then |s| - 1 else |s|;
    var b := BackDigits(s, e);
    if b < e && (b == 0 || !IsWordChar(s[b - 1])) then Some(s[b..e]) else None
  }

  /** Where the volume is searched: from the start of the text, as the
      source does, or after the year, as it evidently means to. */
  datatype VolumeSearch = FromStart | AfterYear

  function VolumeStart(c: string, search: VolumeSearch): nat {
    var y := FindYear(c, 0);
    if search == AfterYear && y.Some? then y.value + 6 else 0
  }

  /** The last fallback: the year, the volume, the reporter ("S.C.R." when
      none is found) and the page, each searched on its own in the
      corrected text `c`; the uncorrected `text` when the year, the volume
      or the page is missing. */
  function Rebuilt(text: string, c: string, search: VolumeSearch): string {
    var y := FindYear(c, 0);
    var v := FindNumber(c, VolumeStart(c, search));
    var page := TrailingNumber(c);
    if y.Some? && v.Some? && page.Some? then
      Render(c[y.value + 1..y.value + 5], NumberFrom(c, v.value), FoundReporter(c), page.value)
    else text
  }

  /** The reporter as written in `c`, or "S.C.R." when there is none. */
  function FoundReporter(c: string): string {
    var reporter := FindReporter(c, 0, Reporters);
    if reporter.Some? then reporter.value else Reporters[0]
  }

  /** `clean_jumbled_citation(text, original_line)`. */
  function Clean(text: string, original: Option<string>, search: VolumeSearch): string {
    var c := Corrected(text);
    if FullForm(c) then c
    else
      var o := if original.Some? && original.value != [] then FromOriginal(c, Corrected(original.value)) else None;
      if o.Some? then o.value else Rebuilt(text, c, search)
  }

  /** `clean_jumbled_citation`: with `FromStart` as the source searches for
      the volume, with `AfterYear` as corrected. */
  method CleanJumbledCitation(text: string, original: Option<string>, search: VolumeSearch) returns (citation: string)
    ensures citation == Clean(text, original, search)
  {
    var c := Correct(text);
    if FullForm(c) {
      return c;
    }
    if original.Some? && original.value != [] {
      var oc := Correct(original.value);
      var o := FromOriginal(c, oc);
      if o.Some? {
        return o.value;
      }
    }
    citation := Rebuilt(text, c, search);
  }

  // ---------------------------------------------------------------------
  // Properties
  // ---------------------------------------------------------------------

  /** No 'O', 'I' or 'T'. */
  predicate Plain(s: string) {
    'O' !in s && 'I' !in s && 'T' !in s
  }

  lemma PlainUnchanged(s: string)
    requires Plain(s)
    ensures Corrected(s) == s
  {
    assert forall i :: 0 <= i < |s| ==> s[i] in s;
  }

  lemma PlainSlice(s: string, i: nat, j: nat)
    requires Plain(s) && i <= j <= |s|
    ensures Plain(s[i..j])
  {
    assert forall k :: i <= k < j ==> s[k] in s;
  }

  /** In a corrected text only "S.C.R." and "SCC" can stand as reporter:
      "AIR" and "INSC" have lost their 'I'. */
  lemma OnlyScrOrScc(c: string, i: nat)
    requires Plain(c)
    ensures ReporterAt(c, i, Reporters) == None || ReporterAt(c, i, Reporters) == Some(0) ||
            ReporterAt(c, i, Reporters) == Some(1)
  {
    LetterMissing(c, Reporters[2], 1);
    LetterMissing(c, Reporters[3], 0);
  }

  /** Where the parts of a rendered citation lie, with a volume of `nv`
      digits, the reporter `r` and a page of `np` digits. */
  predicate Layout(s: string, nv: nat, r: string, np: nat) {
    var e := 8 + nv + |r|;
    |s| == e + 1 + np && YearAt(s, 0, '[', ']') && s[6] == ' ' && AllDigits(s[7..7 + nv]) &&
    s[7 + nv] == ' ' && s[8 + nv..e] == r && s[e] == ' ' && AllDigits(s[e + 1..])
  }

  /** `s` has the layout above with the year `y`, the volume `v`, the
      reporter `r` and the page `p` in their places. */
  predicate LaidOut(s: string, y: string, v: string, r: string, p: string) {
    Layout(s, |v|, r, |p|) && s[1..5] == y && s[7..7 + |v|] == v && s[|s| - |p|..] == p
  }

  lemma RenderLayout(y: string, v: string, r: string, p: string)
    requires |y| == 4 && AllDigits(y) && AllDigits(v) && AllDigits(p)
    ensures LaidOut(Render(y, v, r, p), y, v, r, p)
  {
    var s := Render(y, v, r, p);
    var e := 8 + |v| + |r|;
    assert s == "[" + y + "] " + v + " " + r + " " + p;
    assert s[1..5] == y;
    assert s[7..7 + |v|] == v;
    assert s[8 + |v|..e] == r;
    assert s[e + 1..] == p;
  }

  lemma LayoutHead(s: string, nv: nat, r: string, np: nat)
    requires Layout(s, nv, r, np) && nv > 0
    requires r == Reporters[0] || r == Reporters[1]
    ensures HeadAt(s, 0, Reporters) == Some(Head(7, 7 + nv, 8 + nv, 8 + nv + |r|))
  {
    var c := 8 + nv;
    assert s[7] == s[7..7 + nv][0];
    SkipSpacesEnd(s, 6, 7);
    SkipDigitsEnd(s, 7, 7 + nv);
    assert s[c] == s[c..c + |r|][0];
    SkipSpacesEnd(s, 7 + nv, c);
    if r == Reporters[1] {
      assert s[c + 1] == s[c..c + |r|][1];
    }
    assert ReporterAt(s, c, Reporters) == Some(if r == Reporters[0] then 0 else 1);
  }

  /** A citation rendered from a four-digit year, a volume, "S.C.R." or
      "SCC" and a page has the full form. */
  lemma LayoutFullForm(s: string, nv: nat, r: string, np: nat)
    requires Layout(s, nv, r, np) && nv > 0 && np > 0
    requires r == Reporters[0] || r == Reporters[1]
    ensures FullForm(s)
  {
    LayoutHead(s, nv, r, np);
    LayoutPage(s, nv, r, np);
  }

  lemma LayoutPage(s: string, nv: nat, r: string, np: nat)
    requires Layout(s, nv, r, np) && np > 0
    ensures SkipSpaces(s, 8 + nv + |r|) == 9 + nv + |r|
    ensures SkipDigits(s, 9 + nv + |r|) == |s|
  {
    var e := 8 + nv + |r|;
    assert s[e + 1] == s[e + 1..][0];
    SkipSpacesEnd(s, e, e + 1);
    assert forall k :: e + 1 <= k < |s| ==> s[k] == s[e + 1..][k - e - 1];
    SkipDigitsEnd(s, e + 1, |s|);
  }

  /** A reporter found in a text is still found, and is the same one,
      when the text is extended. */
  lemma ReporterKept(c: string, s: string, r: nat)
    requires c <= s && Plain(c) && ReporterAt(c, r, Reporters).Some?
    ensures ReporterAt(s, r, Reporters) == ReporterAt(c, r, Reporters)
  {
    OnlyScrOrScc(c, r);
    var k := ReporterAt(c, r, Reporters).value;
    assert s[r..r + |Reporters[k]|] == c[r..r + |Reporters[k]|];
    if k == 1 {
      assert c[r + 1] == c[r..r + 3][1];
      assert s[r + 1] == c[r + 1];
    }
  }

  /** The scans of a head give the same positions in an extension of the
      text. */
  lemma HeadKept(c: string, s: string)
    requires c <= s && HeadAt(c, 0, Reporters).Some?
    ensures YearAt(s, 0, '[', ']')
    ensures var a := SkipSpaces(c, 6); var b := SkipDigits(c, a);
      SkipSpaces(s, 6) == a && SkipDigits(s, a) == b && SkipSpaces(s, b) == SkipSpaces(c, b)
  {
    assert s[1..5] == c[1..5];
    var a := SkipSpaces(c, 6);
    var b := SkipDigits(c, a);
    var r := SkipSpaces(c, b);
    SkipSpacesEnd(s, 6, a);
    SkipDigitsEnd(s, a, b);
    SkipSpacesEnd(s, b, r);
  }

  /** Extending a text after a head keeps the head where it was. */
  lemma HeadExtended(c: string, s: string)
    requires c <= s && Plain(c) && HeadAt(c, 0, Reporters).Some?
    ensures HeadAt(s, 0, Reporters) == HeadAt(c, 0, Reporters)
  {
    var a := SkipSpaces(c, 6);
    var b := SkipDigits(c, a);
    var r := SkipSpaces(c, b);
    HeadKept(c, s);
    ReporterKept(c, s, r);
    var k := ReporterAt(c, r, Reporters).value;
    HeadAtIs(c, Reporters, a, b, r, k);
    HeadAtIs(s, Reporters, a, b, r, k);
  }

  /** The head the scans find, once their positions are known. */
  lemma HeadAtIs(s: string, reps: seq<string>, a: nat, b: nat, r: nat, k: nat)
    requires YearAt(s, 0, '[', ']') && SkipSpaces(s, 6) == a && SkipDigits(s, a) == b && SkipSpaces(s, b) == r
    requires ReporterAt(s, r, reps) == Some(k) && k < |reps|
    ensures HeadAt(s, 0, reps) == if a == b || reps[k] == [] then None else Some(Head(a, b, r, r + |reps[k]|))
  {
  }

  /** A head without page, a space and a number: the full form. */
  lemma PartialPlusPage(c: string, p: string)
    requires PartialForm(c) && Plain(c) && p != [] && AllDigits(p)
    ensures FullForm(c + " " + p)
  {
    var s := c + " " + p;
    assert c <= s;
    HeadExtended(c, s);
    PageTail(c, p, HeadAt(c, 0, Reporters).value.reporterEnd);
  }

  /** After a head that ends the text, a space and a number: the scans
      reach the number and then the end. */
  lemma PageTail(c: string, p: string, e: nat)
    requires AtEnd(c, e) && p != [] && AllDigits(p)
    ensures var s := c + " " + p; var d := SkipSpaces(s, e);
      d < SkipDigits(s, d) == |s|
  {
    var s := c + " " + p;
    var d := if e == |c| then e + 1 else e + 2;
    assert s[d..] == p;
    assert s[d] == p[0];
    SkipSpacesEnd(s, e, d);
    assert forall k :: d <= k < |s| ==> s[k] == p[k - d];
    SkipDigitsEnd(s, d, |s|);
  }

  /** Every repair made from the original line has the full form. */
  lemma RepairFullForm(c: string, oc: string)
    requires Plain(c) && Plain(oc)
    ensures FromOriginal(c, oc).Some? ==> FullForm(FromOriginal(c, oc).value)
  {
    var page := LeadingDigits(oc);
    if page != [] {
      if PartialForm(c) {
        PartialPlusPage(c, page);
      } else if FindHead(oc, 0, Reporters).Some? {
        HeadRepairFullForm(oc, FindHead(oc, 0, Reporters).value, page);
      }
    }
  }

  /** A head of the original line rebuilt with a page has the full form. */
  lemma HeadRepairFullForm(oc: string, i: nat, page: string)
    requires Plain(oc) && HeadAt(oc, i, Reporters).Some? && page != [] && AllDigits(page)
    ensures var h := HeadAt(oc, i, Reporters).value;
      FullForm(Render(oc[i + 1..i + 5], oc[h.volume..h.volumeEnd], oc[h.reporter..h.reporterEnd], page))
  {
    var h := HeadAt(oc, i, Reporters).value;
    var y := oc[i + 1..i + 5];
    var v := oc[h.volume..h.volumeEnd];
    var r := oc[h.reporter..h.reporterEnd];
    OnlyScrOrScc(oc, h.reporter);
    RenderLayout(y, v, r, page);
    LayoutFullForm(Render(y, v, r, page), |v|, r, |page|);
  }

  /** A repair from the original line (or a citation that had the full
      form) is left unchanged when cleaned again. */
  lemma CleanStable(text: string, original: Option<string>, again: Option<string>, search: VolumeSearch)
    requires var c := Corrected(text);
      FullForm(c) || (original.Some? && original.value != [] && FromOriginal(c, Corrected(original.value)).Some?)
    ensures FullForm(Clean(text, original, search))
    ensures Clean(Clean(text, original, search), again, search) == Clean(text, original, search)
  {
    var c := Corrected(text);
    CorrectedFacts(text);
    var r := Clean(text, original, search);
    if !FullForm(c) {
      var oc := Corrected(original.value);
      CorrectedFacts(original.value);
      RepairFullForm(c, oc);
      RepairPlain(c, oc);
    }
    PlainUnchanged(r);
  }

  lemma RepairPlain(c: string, oc: string)
    requires Plain(c) && Plain(oc) && FromOriginal(c, oc).Some?
    ensures Plain(FromOriginal(c, oc).value)
  {
    var page := LeadingDigits(oc);
    PlainSlice(oc, 0, |page|);
    if PartialForm(c) {
      PlainJoin(c, " ", page);
    } else {
      var i := FindHead(oc, 0, Reporters).value;
      var h := HeadAt(oc, i, Reporters).value;
      PlainSlice(oc, i + 1, i + 5);
      PlainSlice(oc, h.volume, h.volumeEnd);
      PlainSlice(oc, h.reporter, h.reporterEnd);
      PlainRender(oc[i + 1..i + 5], oc[h.volume..h.volumeEnd], oc[h.reporter..h.reporterEnd], page);
    }
  }

  lemma PlainJoin(a: string, sep: string, b: string)
    requires Plain(a) && Plain(sep) && Plain(b)
    ensures Plain(a + sep + b)
  {
  }

  /** A citation rendered from parts without 'O', 'I' or 'T' has none. */
  lemma PlainRender(y: string, v: string, r: string, p: string)
    requires Plain(y) && Plain(v) && Plain(r) && Plain(p)
    ensures Plain(Render(y, v, r, p))
  {
  }

  // ---------------------------------------------------------------------
  // The last fallback
  // ---------------------------------------------------------------------

  /** All three of the year, the volume and the page are found. */
  predicate PartsFound(c: string, search: VolumeSearch) {
    FindYear(c, 0).Some? && FindNumber(c, VolumeStart(c, search)).Some? && TrailingNumber(c).Some?
  }

  /** The last fallback gives back the text as it came (not corrected)
      when a part is missing; otherwise it lays out the year found in the
      corrected text, the volume, the reporter (by default "S.C.R.") and
      the page, one space apart. */
  lemma RebuiltCases(text: string, c: string, search: VolumeSearch)
    ensures !PartsFound(c, search) ==> Rebuilt(text, c, search) == text
    ensures PartsFound(c, search) ==>
      var y := FindYear(c, 0).value;
      var v := NumberFrom(c, FindNumber(c, VolumeStart(c, search)).value);
      0 < |v| && LaidOut(Rebuilt(text, c, search), c[y + 1..y + 5], v, FoundReporter(c), TrailingNumber(c).value)
  {
    if PartsFound(c, search) {
      var y := FindYear(c, 0).value;
      var n := FindNumber(c, VolumeStart(c, search)).value;
      var p := TrailingNumber(c).value;
      RebuiltParts(text, c, search, y, n, p);
      RenderLayout(c[y + 1..y + 5], NumberFrom(c, n), FoundReporter(c), p);
    }
  }

  /** The parts the last fallback lays out: the four digits of the year, the
      volume digits (at least one) and the page digits. */
  lemma RebuiltParts(text: string, c: string, search: VolumeSearch, y: nat, n: nat, p: string)
    requires FindYear(c, 0) == Some(y)
    requires FindNumber(c, VolumeStart(c, search)) == Some(n)
    requires TrailingNumber(c) == Some(p)
    ensures n < |c| && y + 5 <= |c|
    ensures Rebuilt(text, c, search) == Render(c[y + 1..y + 5], NumberFrom(c, n), FoundReporter(c), p)
    ensures |c[y + 1..y + 5]| == 4 && AllDigits(c[y + 1..y + 5])
    ensures 0 < |NumberFrom(c, n)| && AllDigits(NumberFrom(c, n)) && AllDigits(p)
  {
    NumberDigits(c, n);
    YearDigits(c, y);
    RebuiltRender(text, c, search, y, n, p);
  }

  lemma YearDigits(c: string, y: nat)
    requires YearAt(c, y, '[', ']')
    ensures y + 6 <= |c| && |c[y + 1..y + 5]| == 4 && AllDigits(c[y + 1..y + 5])
  {
  }

  lemma RebuiltRender(text: string, c: string, search: VolumeSearch, y: nat, n: nat, p: string)
    requires FindYear(c, 0) == Some(y)
    requires FindNumber(c, VolumeStart(c, search)) == Some(n)
    requires TrailingNumber(c) == Some(p)
    ensures n < |c| && y + 5 <= |c|
    ensures Rebuilt(text, c, search) == Render(c[y + 1..y + 5], NumberFrom(c, n), FoundReporter(c), p)
  {
    var year, volume, page := FindYear(c, 0), FindNumber(c, VolumeStart(c, search)), TrailingNumber(c);
    assert year.Some? && volume.Some? && page.Some?;
    assert year.value == y && volume.value == n && page.value == p;
  }

  /** A whole number found at `n` has at least one digit and only digits. */
  lemma NumberDigits(c: string, n: nat)
    requires NumberAt(c, n)
    ensures 0 < |NumberFrom(c, n)| && AllDigits(NumberFrom(c, n))
  {
    assert NumberFrom(c, n)[0] == c[n];
  }

  /** When the reporter is "S.C.R." or "SCC" as written (or none is found),
      the rebuilt citation has the full form, so cleaning it again returns
      it unchanged. */
  lemma RebuiltFullForm(text: string, c: string, search: VolumeSearch)
    requires PartsFound(c, search)
    requires FoundReporter(c) == Reporters[0] || FoundReporter(c) == Reporters[1]
    ensures FullForm(Rebuilt(text, c, search))
  {
    RebuiltCases(text, c, search);
    var v := NumberFrom(c, FindNumber(c, VolumeStart(c, search)).value);
    LayoutFullForm(Rebuilt(text, c, search), |v|, FoundReporter(c), |TrailingNumber(c).value|);
  }

  // ---------------------------------------------------------------------
  // The volume search
  // ---------------------------------------------------------------------

  /** As written, the volume is the first whole number of the text: when
      no digit comes before the year, that is the year's own four digits. */
  lemma VolumeIsYear(c: string, y: nat)
    requires FindYear(c, 0) == Some(y)
    requires forall j :: 0 <= j < y ==> !IsDigit(c[j])
    ensures FindNumber(c, 0) == Some(y + 1) && NumberFrom(c, y + 1) == c[y + 1..y + 5]
  {
    assert forall k :: y + 1 <= k < y + 5 ==> c[k] == c[y + 1..y + 5][k - y - 1];
    SkipDigitsEnd(c, y + 1, y + 5);
    assert NumberAt(c, y + 1);
  }

  /** So the last fallback, as written, repeats the year as the volume. */
  lemma YearRepeated(text: string, c: string, y: nat)
    requires FindYear(c, 0) == Some(y) && TrailingNumber(c).Some?
    requires forall j :: 0 <= j < y ==> !IsDigit(c[j])
    ensures PartsFound(c, FromStart)
    ensures var r := Rebuilt(text, c, FromStart); r[7..11] == r[1..5]
  {
    VolumeIsYear(c, y);
    RebuiltCases(text, c, FromStart);
    var r := Rebuilt(text, c, FromStart);
    assert LaidOut(r, c[y + 1..y + 5], c[y + 1..y + 5], FoundReporter(c), TrailingNumber(c).value);
  }

  /** Searched after the year, the volume is the first whole number that
      follows the year's closing bracket. */
  lemma VolumeAfterYear(c: string)
    requires FindYear(c, 0).Some? && FindNumber(c, VolumeStart(c, AfterYear)).Some?
    ensures var y := FindYear(c, 0).value; var v := FindNumber(c, VolumeStart(c, AfterYear)).value;
      y + 6 <= v && NumberAt(c, v) && forall j :: y + 6 <= j < v ==> !NumberAt(c, j)
  {
  }

  /** A citation whose reporter the reading lost. */
  const Jumbled := "[2024] 10 961"

  /** A text without the letter `w[q]`, in either case, has no `w` in it,
      case ignored. */
  lemma FoldMissing(s: string, w: string, q: nat)
    requires q < |w| && 'A' <= w[q] <= 'Z' && w[q] !in s && LowerChar(w[q]) !in s
    ensures forall j :: !FoldAt(s, j, w)
  {
    forall j: nat | j + |w| <= |s| ensures !FoldAt(s, j, w) {
      assert s[j + q] in s;
    }
  }

  lemma {:induction false} FindReporterNone(s: string, i: nat, reps: seq<string>)
    requires forall j, k :: i <= j && 0 <= k < |reps| ==> !FoldAt(s, j, reps[k])
    ensures FindReporter(s, i, reps).None?
    decreases |s| - i
  {
    if i < |s| {
      FindReporterNone(s, i + 1, reps);
    }
  }

  /** Without 'S', 'A' and 'I' in either case, a text holds no reporter:
      the fallback uses "S.C.R.". */
  lemma NoReporterLetters(s: string)
    requires 'S' !in s && 's' !in s && 'A' !in s && 'a' !in s && 'I' !in s && 'i' !in s
    ensures FoundReporter(s) == Reporters[0]
    ensures forall j :: ReporterAt(s, j, Reporters).None?
  {
    FoldMissing(s, Reporters[0], 0);
    FoldMissing(s, Reporters[1], 0);
    FoldMissing(s, Reporters[2], 0);
    FoldMissing(s, Reporters[3], 0);
    FindReporterNone(s, 0, Reporters);
    LetterMissing(s, Reporters[0], 0);
    LetterMissing(s, Reporters[1], 0);
    LetterMissing(s, Reporters[2], 0);
    LetterMissing(s, Reporters[3], 0);
  }

  lemma JumbledNoReporter()
    ensures FoundReporter(Jumbled) == Reporters[0]
    ensures forall j :: ReporterAt(Jumbled, j, Reporters).None?
  {
    NoReporterLetters(Jumbled);
  }

  /** Nothing to correct, and no head: cleaning goes to the last
      fallback. */
  lemma JumbledFallsBack()
    ensures Corrected(Jumbled) == Jumbled
    ensures !FullForm(Jumbled) && !PartialForm(Jumbled)
  {
    PlainUnchanged(Jumbled);
    JumbledNoReporter();
  }

  /** The year is at the start and the volume "10" after it. */
  lemma JumbledNumbers()
    ensures FindYear(Jumbled, 0) == Some(0) && VolumeStart(Jumbled, AfterYear) == 6
    ensures FindNumber(Jumbled, 0) == Some(1) && NumberFrom(Jumbled, 1) == "2024"
    ensures FindNumber(Jumbled, 6) == Some(7) && NumberFrom(Jumbled, 7) == "10"
  {
    var s := Jumbled;
    assert YearAt(s, 0, '[', ']');
    VolumeIsYear(s, 0);
    SkipDigitsEnd(s, 7, 9);
    assert NumberAt(s, 7);
  }

  /** The page "961" ends the text. */
  lemma JumbledPage()
    ensures TrailingNumber(Jumbled) == Some("961")
  {
    var s := Jumbled;
    assert BackDigits(s, 13) == 10;
    assert s[10..13] == "961";
  }

  /** The last fallback decides, on the text as it is. */
  lemma JumbledRebuilt(search: VolumeSearch)
    ensures Clean(Jumbled, None, search) == Rebuilt(Jumbled, Jumbled, search)
  {
    JumbledFallsBack();
  }

  /** As written: "[2024] 10 961" becomes "[2024] 2024 S.C.R. 961", the
      year standing in for the volume. */
  lemma JumbledAsWritten()
    ensures Clean(Jumbled, None, FromStart) == "[2024] 2024 S.C.R. 961"
  {
    JumbledRebuilt(FromStart);
    JumbledNumbers();
    JumbledPage();
    JumbledNoReporter();
    assert Jumbled[1..5] == "2024";
    RenderedCitations();
  }

  /** With the volume searched after the year: "[2024] 10 S.C.R. 961". */
  lemma JumbledCorrected()
    ensures Clean(Jumbled, None, AfterYear) == "[2024] 10 S.C.R. 961"
  {
    JumbledRebuilt(AfterYear);
    JumbledNumbers();
    JumbledPage();
    JumbledNoReporter();
    assert Jumbled[1..5] == "2024";
    RenderedCitations();
  }

  lemma RenderedCitations()
    ensures Render("2024", "2024", "S.C.R.", "961") == "[2024] 2024 S.C.R. 961"
    ensures Render("2024", "10", "S.C.R.", "961") == "[2024] 10 S.C.R. 961"
  {
  }
}
