/** Program 2, `extract_parties`: citation, title, category and subcategory,
    the two parties and the hearing dates of one judgment.  The regex and
    spaCy searches are inputs (their matches, or whether they matched); the
    tables, the first-match loops, the fallbacks and the dict updates are
    modelled. */
module Parties {
  import opened Text
  import opened Records

  const Unknown := "Unknown"
  const ErrorKey := "Error (Program 2)"

  // ---------------------------------------------------------------------
  // The tables
  // ---------------------------------------------------------------------

  const Civil: seq<string> := [
    "Advisory Jurisdiction", "Arbitration Petition", "Civil Appeal", "Civil Miscellaneous Petition",
    "Original Suit", "Review Petition (Civil)", "Special Leave Petition (Civil)",
    "Suo Motu Writ Petition (Civil)", "Suo Motu Contempt Petition (Civil)",
    "Suo Motu Transfer Petition (Civil)", "Transfer Petition (Civil)", "Transferred Case (Civil)",
    "Writ Petition (Civil)", "Contempt Petition (Civil)", "Curative Petition (Civil)",
    "Election Petition (Civil)"]

  const Criminal: seq<string> := [
    "Review Petition (Criminal)", "Special Leave Petition (Criminal)", "Suo Motu Writ (Criminal)",
    "Suo Motu Contempt Petition (Criminal)", "Suo Motu Transfer Petition (Criminal)",
    "Suo Motu Writ Petition (Criminal)", "Transfer Petition (Criminal)", "Transferred Case (Criminal)",
    "Writ Petition (Criminal)", "Contempt Petition (Criminal)", "Criminal Appeal",
    "Criminal Miscellaneous Petition", "Curative Petition (Criminal)", "Death Reference Case",
    "Motion (CRL)"]

  const Others: seq<string> := [
    "Ref. U/A 317(1)", "Ref. U/S 14 RTI", "Ref. U/S 143", "Ref. U/S 17 RTI", "Special Reference Case",
    "Tax Reference Case", "Disciplinary Jurisdiction", "Excise Reference No", "Habeas Corpus Petition",
    "Miscellaneous Application", "All Sea"]

  /** `CASE_CATEGORIES`, in its dict order. */
  const Categories: seq<(string, seq<string>)> := [("Civil", Civil), ("Criminal", Criminal), ("Others", Others)]

  /** `SUBCATEGORY_SHORT_FORMS`, in its dict order: lower-case key, full form. */
  const ShortForms: seq<(string, string)> := [
    ("writ petition (c)", "Writ Petition (Civil)"),
    ("smw (civil)", "Suo Motu Writ Petition (Civil)"),
    ("smw (crl)", "Suo Motu Writ (Criminal)"),
    ("writ petition (crl)", "Writ Petition (Criminal)"),
    ("slp (civil)", "Special Leave Petition (Civil)"),
    ("slp (crl)", "Special Leave Petition (Criminal)"),
    ("suo motu writ (civil)", "Suo Motu Writ Petition (Civil)"),
    ("suo motu writ (crl)", "Suo Motu Writ (Criminal)"),
    ("motion (crl)", "Motion (CRL)"),
    ("ref. u/a 317(1)", "Ref. U/A 317(1)"),
    ("ref. u/s 14 rti", "Ref. U/S 14 RTI"),
    ("ref. u/s 143", "Ref. U/S 143"),
    ("ref. u/s 17 rti", "Ref. U/S 17 RTI")]

  /** The names rewritten to "Special Reference Case" before the lookup. */
  const ReferenceNames: seq<string> := ["Special Reference", "Reference Case", "Reference"]
  const SpecialReferenceCase := "Special Reference Case"

  /** No subcategory is listed under two categories. */
  lemma CategoriesDisjoint()
    ensures forall s :: s in Civil ==> s !in Criminal && s !in Others
    ensures forall s :: s in Criminal ==> s !in Others
  {
    CivilNotCriminal();
    CivilNotOthers();
    CriminalNotOthers();
  }

  lemma CivilNotCriminal() ensures forall s :: s in Civil ==> s !in Criminal {}
  lemma CivilNotOthers() ensures forall s :: s in Civil ==> s !in Others {}
  lemma CriminalNotOthers() ensures forall s :: s in Criminal ==> s !in Others {}

  // ---------------------------------------------------------------------
  // normalize_subcategory
  // ---------------------------------------------------------------------

  /** The full form of the first entry of `table` whose key is `key`. */
  function FullFormIn(key: string, table: seq<(string, string)>): (r: Option<string>)
    ensures r.None? <==> forall i :: 0 <= i < |table| ==> table[i].0 != key
    ensures r.Some? ==> exists i :: 0 <= i < |table| && table[i] == (key, r.value)
  {
    if table == [] then None
    else if table[0].0 == key then Some(table[0].1)
    else
      var r := FullFormIn(key, table[1..]);
      assert forall i :: 1 <= i < |table| ==> table[i] == table[1..][i - 1];
      r
  }

  /** `normalize_subcategory`: the full form when the lower-cased, stripped
      input is a short-form key; otherwise the input as given. */
  function Normalize(subcat: string): string {
    match FullFormIn(Strip(Lower(subcat)), ShortForms)
    case Some(f) => f
    case None => subcat
  }

  method NormalizeSubcategory(subcat: string) returns (r: string)
    ensures r == Normalize(subcat)
  {
    var key := Strip(Lower(subcat));
    for i := 0 to |ShortForms|
      invariant FullFormIn(key, ShortForms) == FullFormIn(key, ShortForms[i..])
    {
      assert ShortForms[i..][1..] == ShortForms[i + 1..];
      if key == ShortForms[i].0 {
        return ShortForms[i].1;
      }
    }
    r := subcat;
  }

  lemma ShortKeysDistinct()
    ensures forall i, j :: 0 <= i < j < |ShortForms| ==> ShortForms[i].0 != ShortForms[j].0
  {
  }

  /** The full form exactly when the lower-cased, stripped input is a key,
      and then the one that key stands for; otherwise the input, untrimmed. */
  lemma NormalizeCases(subcat: string)
    ensures var key := Strip(Lower(subcat));
      forall i :: 0 <= i < |ShortForms| && ShortForms[i].0 == key ==> Normalize(subcat) == ShortForms[i].1
    ensures (forall i :: 0 <= i < |ShortForms| ==> ShortForms[i].0 != Strip(Lower(subcat))) ==> Normalize(subcat) == subcat
  {
    ShortKeysDistinct();
  }

  /** Every full form normalizes to itself: either its lower-cased form is no
      key, or it is the key of that very full form. */
  lemma FullFormsAreFixed(i: nat)
    requires i < |ShortForms|
    ensures Normalize(ShortForms[i].1) == ShortForms[i].1
  {
    var f := ShortForms[i].1;
    if i == 0 { FixedWritCivil(f); }
    else if i == 1 || i == 6 { FixedSuoMotuWritPetitionCivil(f); }
    else if i == 2 || i == 7 { FixedSuoMotuWritCriminal(f); }
    else if i == 3 { FixedWritCriminal(f); }
    else if i == 4 { FixedSlpCivil(f); }
    else if i == 5 { FixedSlpCriminal(f); }
    else if i == 8 { FixedMotionCrl(f); }
    else if i == 9 { FixedRefUa317(f); }
    else if i == 10 { FixedRefUs14(f); }
    else if i == 11 { FixedRefUs143(f); }
    else { FixedRefUs17(f); }
  }

  // One lemma per full form, each taking the form as a parameter so that
  // the literal is not unfolded where the lemmas are combined.
  lemma FixedWritCivil(f: string) requires f == "Writ Petition (Civil)" ensures Normalize(f) == f {
    FixedPoint(f, "writ petition (civil)");
  }
  lemma FixedSuoMotuWritPetitionCivil(f: string) requires f == "Suo Motu Writ Petition (Civil)" ensures Normalize(f) == f {
    FixedPoint(f, "suo motu writ petition (civil)");
  }
  lemma FixedSuoMotuWritCriminal(f: string) requires f == "Suo Motu Writ (Criminal)" ensures Normalize(f) == f {
    FixedPoint(f, "suo motu writ (criminal)");
  }
  lemma FixedWritCriminal(f: string) requires f == "Writ Petition (Criminal)" ensures Normalize(f) == f {
    FixedPoint(f, "writ petition (criminal)");
  }
  lemma FixedSlpCivil(f: string) requires f == "Special Leave Petition (Civil)" ensures Normalize(f) == f {
    FixedPoint(f, "special leave petition (civil)");
  }
  lemma FixedSlpCriminal(f: string) requires f == "Special Leave Petition (Criminal)" ensures Normalize(f) == f {
    FixedPoint(f, "special leave petition (criminal)");
  }
  lemma FixedMotionCrl(f: string) requires f == "Motion (CRL)" ensures Normalize(f) == f {
    FixedPoint(f, "motion (crl)");
  }
  lemma FixedRefUa317(f: string) requires f == "Ref. U/A 317(1)" ensures Normalize(f) == f {
    FixedPoint(f, "ref. u/a 317(1)");
  }
  lemma FixedRefUs14(f: string) requires f == "Ref. U/S 14 RTI" ensures Normalize(f) == f {
    FixedPoint(f, "ref. u/s 14 rti");
  }
  lemma FixedRefUs143(f: string) requires f == "Ref. U/S 143" ensures Normalize(f) == f {
    FixedPoint(f, "ref. u/s 143");
  }
  lemma FixedRefUs17(f: string) requires f == "Ref. U/S 17 RTI" ensures Normalize(f) == f {
    FixedPoint(f, "ref. u/s 17 rti");
  }

  /** A full form whose lower-case spelling is `lower` is fixed, provided
      that spelling is no key or is the key of this very form. */
  lemma FixedPoint(f: string, lower: string)
    requires |f| == |lower| && forall i :: 0 <= i < |f| ==> LowerChar(f[i]) == lower[i]
    requires lower != [] ==> !IsSpace(lower[0]) && !IsSpace(lower[|lower| - 1])
    requires forall i :: 0 <= i < |ShortForms| && ShortForms[i].0 == lower ==> ShortForms[i].1 == f
    ensures Normalize(f) == f
  {
    LowerEq(f, lower);
    StripUnchanged(lower);
  }

  /** Normalizing twice is normalizing once. */
  lemma NormalizeIdempotent(subcat: string)
    ensures Normalize(Normalize(subcat)) == Normalize(subcat)
  {
    var key := Strip(Lower(subcat));
    match FullFormIn(key, ShortForms)
    case None =>
    case Some(f) =>
      var i :| 0 <= i < |ShortForms| && ShortForms[i] == (key, f);
      FullFormsAreFixed(i);
  }

  // ---------------------------------------------------------------------
  // determine_category_subcategory
  // ---------------------------------------------------------------------

  /** A matched name as the lookup sees it: normalized, and the three
      reference names rewritten to "Special Reference Case". */
  function Resolve(raw: string): string {
    var n := Normalize(raw);
    if n in ReferenceNames then SpecialReferenceCase else n
  }

  /** The first category of `cats` whose list holds `sub`. */
  function CategoryIn(sub: string, cats: seq<(string, seq<string>)>): (r: Option<string>)
    ensures r.None? <==> forall i :: 0 <= i < |cats| ==> sub !in cats[i].1
    ensures r.Some? ==> exists i :: 0 <= i < |cats| && cats[i].0 == r.value && sub in cats[i].1
  {
    if cats == [] then None
    else if sub in cats[0].1 then Some(cats[0].0)
    else
      var r := CategoryIn(sub, cats[1..]);
      assert forall i :: 1 <= i < |cats| ==> cats[i] == cats[1..][i - 1];
      r
  }

  function CategoryOf(sub: string): Option<string> {
    CategoryIn(sub, Categories)
  }

  /** A subcategory belongs to the one category whose list holds it, and to
      none when no list does. */
  lemma CategoryOfCases(sub: string)
    ensures CategoryOf(sub) == Some("Civil") <==> sub in Civil
    ensures CategoryOf(sub) == Some("Criminal") <==> sub in Criminal
    ensures CategoryOf(sub) == Some("Others") <==> sub in Others
    ensures CategoryOf(sub).None? <==> sub !in Civil && sub !in Criminal && sub !in Others
  {
    CategoriesDisjoint();
    assert Categories[0].1 == Civil && Categories[1].1 == Criminal && Categories[2].1 == Others;
  }

  /** A listed subcategory never has the category "Unknown". */
  lemma CategoryKnown(sub: string)
    ensures CategoryOf(sub).Some? ==> CategoryOf(sub).value != Unknown
  {
    if CategoryOf(sub).Some? {
      var i :| 0 <= i < |Categories| && Categories[i].0 == CategoryOf(sub).value && sub in Categories[i].1;
      assert Categories[i].0 != Unknown;
    }
  }

  function CategoryName(c: Option<string>): string {
    if c.Some? then c.value else Unknown
  }

  /** The loop that sets `category` to the first category holding `sub`
      and leaves it as it was when none does. */
  method FindCategory(sub: string, current: string) returns (category: string)
    ensures category == if CategoryOf(sub).Some? then CategoryOf(sub).value else current
  {
    category := current;
    for k := 0 to |Categories|
      invariant CategoryOf(sub) == CategoryIn(sub, Categories[k..])
    {
      assert Categories[k..][1..] == Categories[k + 1..];
      if sub in Categories[k].1 {
        category := Categories[k].0;
        return;
      }
    }
  }

  /** What the two subcategory patterns captured on one line, when they
      matched: the parenthesised form and the plain form. */
  datatype LineMatch = LineMatch(paren: Option<string>, plain: Option<string>)

  /** What the regex searches of `determine_category_subcategory` found. */
  datatype CategoryInput = CategoryInput(
    // the subcategory found together with the title, if any
    extracted: Option<string>,
    // the two patterns on every line of the text, in order
    lineMatches: seq<LineMatch>,
    // the title matches the "In Re" pattern
    titleIsInRe: bool,
    // the In Re table entries whose pattern matches the title and lines
    inReHits: set<string>,
    // the category-list entries whose whole-word pattern matches the first
    // 1000 characters
    pageHits: set<string>)

  function AsList(o: Option<string>): seq<string> {
    if o.Some? then [o.value] else []
  }

  /** `lines[:7] if len(lines) >= 7 else lines`. */
  function TargetLines(ms: seq<LineMatch>): seq<LineMatch> {
    if |ms| >= 7 then ms[..7] else ms
  }

  /** The subcategory of the first line where either pattern matched, the
      parenthesised one taking precedence; none when no line matched. */
  function LineSubcategory(ms: seq<LineMatch>): (r: Option<string>)
    ensures r.None? <==> forall i :: 0 <= i < |ms| ==> ms[i].paren.None? && ms[i].plain.None?
  {
    if ms == [] then None
    else if ms[0].paren.Some? then Some(Resolve(Strip(ms[0].paren.value)))
    else if ms[0].plain.Some? then Some(Resolve(Strip(ms[0].plain.value)))
    else
      var r := LineSubcategory(ms[1..]);
      assert forall i :: 1 <= i < |ms| ==> ms[i] == ms[1..][i - 1];
      r
  }

  method ScanLines(ms: seq<LineMatch>) returns (found: Option<string>)
    ensures found == LineSubcategory(ms)
  {
    for i := 0 to |ms|
      invariant LineSubcategory(ms) == LineSubcategory(ms[i..])
    {
      assert ms[i..][1..] == ms[i + 1..];
      if ms[i].paren.Some? {
        var sub := NormalizeSubcategory(Strip(ms[i].paren.value));
        if sub in ReferenceNames {
          sub := SpecialReferenceCase;
        }
        return Some(sub);
      }
      if ms[i].plain.Some? {
        var sub := NormalizeSubcategory(Strip(ms[i].plain.value));
        if sub in ReferenceNames {
          sub := SpecialReferenceCase;
        }
        return Some(sub);
      }
    }
    found := None;
  }

  /** The In Re table, in its dict order. */
  const InReNames: seq<string> := [
    "Writ Petition (Civil)", "Suo Motu Writ (Criminal)", "Suo Motu Writ Petition (Civil)",
    "Special Reference Case", "Habeas Corpus Petition", "Miscellaneous Application"]

  /** The category the In Re branch assigns to the subcategory it found. */
  function InReCategory(subcat: string): string {
    if subcat in ["Writ Petition (Civil)", "Suo Motu Writ Petition (Civil)"] then "Civil"
    else if subcat == "Suo Motu Writ (Criminal)" then "Criminal"
    else "Others"
  }

  /** The In Re branch's category is the table category of its subcategory. */
  lemma InReCategoryAgrees(subcat: string)
    requires subcat in InReNames
    ensures CategoryOf(subcat) == Some(InReCategory(subcat))
  {
    CategoryOfCases(subcat);
  }

  /** The first of `names` that is in `hits`. */
  function FirstIn(names: seq<string>, hits: set<string>): (r: Option<string>)
    ensures r.None? <==> forall i :: 0 <= i < |names| ==> names[i] !in hits
    ensures r.Some? ==> r.value in names && r.value in hits
  {
    if names == [] then None
    else if names[0] in hits then Some(names[0])
    else
      var r := FirstIn(names[1..], hits);
      assert forall i :: 1 <= i < |names| ==> names[i] == names[1..][i - 1];
      r
  }

  method ScanInRe(hits: set<string>) returns (found: Option<string>)
    ensures found == FirstIn(InReNames, hits)
  {
    for i := 0 to |InReNames|
      invariant FirstIn(InReNames, hits) == FirstIn(InReNames[i..], hits)
    {
      assert InReNames[i..][1..] == InReNames[i + 1..];
      if InReNames[i] in hits {
        return Some(InReNames[i]);
      }
    }
    found := None;
  }

  /** The category lists one after another. */
  function Flat(cats: seq<(string, seq<string>)>): seq<string> {
    if cats == [] then [] else Flat(cats[..|cats| - 1]) + cats[|cats| - 1].1
  }

  function HitTest(hits: set<string>): string -> bool {
    s => s in hits
  }

  /** Every category-list entry the first page mentions, in table order. */
  function PageHits(hits: set<string>): seq<string> {
    Filter(Flat(Categories), HitTest(hits))
  }

  /** Each entry of a category list belongs to that category. */
  lemma CategoryOfMember(k: nat, j: nat)
    requires k < |Categories| && j < |Categories[k].1|
    ensures CategoryOf(Categories[k].1[j]) == Some(Categories[k].0)
  {
    CategoryOfCases(Categories[k].1[j]);
  }

  /** Every entry of every list is in the flattened lists. */
  lemma {:induction false} FlatHoldsAll(cats: seq<(string, seq<string>)>)
    ensures forall i, x :: 0 <= i < |cats| && x in cats[i].1 ==> x in Flat(cats)
  {
    if cats != [] {
      var p := cats[..|cats| - 1];
      FlatHoldsAll(p);
      assert forall i :: 0 <= i < |p| ==> cats[i] == p[i];
    }
  }

  lemma AppendSnoc(a: seq<string>, b: seq<string>, x: string)
    ensures a + (b + [x]) == a + b + [x]
  {
  }

  /** A name in list `k` and in no earlier list belongs to category `k`. */
  lemma {:induction false} CategoryInFirst(x: string, cats: seq<(string, seq<string>)>, k: nat)
    requires k < |cats| && x in cats[k].1
    requires forall i :: 0 <= i < k ==> x !in cats[i].1
    ensures CategoryIn(x, cats) == Some(cats[k].0)
  {
    if k > 0 {
      assert forall i :: 0 <= i < k - 1 ==> cats[1..][i] == cats[i + 1];
      CategoryInFirst(x, cats[1..], k - 1);
    }
  }

  /** Scanning one more entry of a list appends it when it is a hit. */
  lemma FilterStep(before: seq<string>, subcats: seq<string>, j: nat, hits: set<string>)
    requires j < |subcats|
    ensures Filter(before + subcats[..j + 1], HitTest(hits))
         == Filter(before + subcats[..j], HitTest(hits)) + if subcats[j] in hits then [subcats[j]] else []
  {
    FilterSnoc(before + subcats[..j], subcats[j], HitTest(hits));
    assert subcats[..j + 1] == subcats[..j] + [subcats[j]];
    AppendSnoc(before, subcats[..j], subcats[j]);
  }

  /** The first hit of the scan belongs to the category being scanned. */
  lemma FirstHitBelongs(cats: seq<(string, seq<string>)>, k: nat, j: nat, hits: set<string>)
    requires k < |cats| && j < |cats[k].1| && cats[k].1[j] in hits
    requires Filter(Flat(cats[..k]) + cats[k].1[..j], HitTest(hits)) == []
    ensures CategoryIn(cats[k].1[j], cats) == Some(cats[k].0)
  {
    var x := cats[k].1[j];
    assert x !in Flat(cats[..k]) by {
      assert x !in Filter(Flat(cats[..k]) + cats[k].1[..j], HitTest(hits));
    }
    FlatHoldsAll(cats[..k]);
    assert forall i :: 0 <= i < k ==> cats[..k][i] == cats[i];
    CategoryInFirst(x, cats, k);
  }

  /** The nested loop over the category lists: every hit is appended, and
      the category becomes that of the first hit unless already known. */
  method ScanFirstPage(cats: seq<(string, seq<string>)>, hits: set<string>, current: string)
    returns (found: seq<string>, category: string)
    requires forall i :: 0 <= i < |cats| ==> cats[i].0 != Unknown
    ensures found == Filter(Flat(cats), HitTest(hits))
    ensures current != Unknown ==> category == current
    ensures current == Unknown && found == [] ==> category == Unknown
    ensures current == Unknown && found != [] ==> CategoryIn(found[0], cats) == Some(category)
  {
    found := [];
    category := current;
    for k := 0 to |cats|
      invariant found == Filter(Flat(cats[..k]), HitTest(hits))
      invariant current != Unknown ==> category == current
      invariant current == Unknown && found == [] ==> category == Unknown
      invariant current == Unknown && found != [] ==> CategoryIn(found[0], cats) == Some(category)
    {
      var (cat, subcats) := cats[k];
      ghost var before := Flat(cats[..k]);
      assert before + subcats[..0] == before;
      for j := 0 to |subcats|
        invariant found == Filter(before + subcats[..j], HitTest(hits))
        invariant current != Unknown ==> category == current
        invariant current == Unknown && found == [] ==> category == Unknown
        invariant current == Unknown && found != [] ==> CategoryIn(found[0], cats) == Some(category)
      {
        FilterStep(before, subcats, j, hits);
        if subcats[j] in hits {
          if found == [] {
            FirstHitBelongs(cats, k, j, hits);
          }
          found := found + [subcats[j]];
          if category == Unknown {
            category := cat;
          }
        }
      }
      assert before + subcats[..|subcats|] == Flat(cats[..k + 1]) by {
        assert cats[..k + 1][..k] == cats[..k];
      }
    }
    assert cats[..|cats|] == cats;
  }

  /** The first category whose list holds any of `subs`. */
  function Backfill(cats: seq<(string, seq<string>)>, subs: seq<string>): (r: Option<string>)
    ensures r.None? <==> forall i, s :: 0 <= i < |cats| && s in subs ==> s !in cats[i].1
    ensures r.Some? ==> exists i :: 0 <= i < |cats| && cats[i].0 == r.value && exists s :: s in subs && s in cats[i].1
  {
    if cats == [] then None
    else if exists s :: s in subs && s in cats[0].1 then Some(cats[0].0)
    else
      var r := Backfill(cats[1..], subs);
      assert forall i :: 1 <= i < |cats| ==> cats[i] == cats[1..][i - 1];
      r
  }

  method FindBackfill(subs: seq<string>) returns (category: Option<string>)
    ensures category == Backfill(Categories, subs)
  {
    category := FirstCategoryWith(Categories, subs);
  }

  /** The loop over the category lists: the first category whose list holds
      one of `subs`. */
  method FirstCategoryWith(cats: seq<(string, seq<string>)>, subs: seq<string>) returns (category: Option<string>)
    ensures category == Backfill(cats, subs)
  {
    for k := 0 to |cats|
      invariant Backfill(cats, subs) == Backfill(cats[k..], subs)
    {
      assert cats[k..][0] == cats[k] && cats[k..][1..] == cats[k + 1..];
      if exists s :: s in subs && s in cats[k].1 {
        return Some(cats[k].0);
      }
    }
    assert cats[|cats|..] == [];
    category := None;
  }

  /** The extracted subcategory, when it is given and not empty, resolved. */
  function ExtractedSubcategory(extracted: Option<string>): Option<string> {
    if extracted.Some? && extracted.value != [] then Some(Resolve(extracted.value)) else None
  }

  // The steps of `determine_category_subcategory` after the extracted
  // subcategory, each from the (category, subcategories) pair before it.

  /** The first seven lines: the subcategory of the first that matches. */
  function LineStep(inp: CategoryInput, ext: Option<string>): (string, seq<string>) {
    var line := LineSubcategory(TargetLines(inp.lineMatches));
    (if line.Some? then CategoryName(CategoryOf(line.value)) else Unknown, AsList(ext) + AsList(line))
  }

  /** With nothing found and an In Re title: the first In Re table hit. */
  function InReStep(inp: CategoryInput, st: (string, seq<string>)): (string, seq<string>) {
    var hit := FirstIn(InReNames, inp.inReHits);
    if st.1 == [] && inp.titleIsInRe && hit.Some? then (InReCategory(hit.value), [hit.value]) else st
  }

  /** With nothing found yet: every category-list entry the first page
      mentions, and the category of the first. */
  function PageStep(inp: CategoryInput, st: (string, seq<string>)): (string, seq<string>) {
    var page := PageHits(inp.pageHits);
    if st.1 == [] && page != [] then (CategoryName(CategoryOf(page[0])), page) else st
  }

  /** The back-filled category, and "Unknown" for an empty list. */
  function FinishStep(st: (string, seq<string>)): (string, seq<string>) {
    var category := if st.0 == Unknown && st.1 != [] then CategoryName(Backfill(Categories, st.1)) else st.0;
    (category, if st.1 == [] then [Unknown] else st.1)
  }

  /** `determine_category_subcategory`: the category and the list of
      subcategories, from the extracted subcategory, the first seven lines,
      the In Re table and the first page, in that order of preference. */
  function Categorize(inp: CategoryInput): (string, seq<string>) {
    var ext := ExtractedSubcategory(inp.extracted);
    if ext.Some? && CategoryOf(ext.value).Some? then (CategoryOf(ext.value).value, [ext.value])
    else FinishStep(PageStep(inp, InReStep(inp, LineStep(inp, ext))))
  }

  lemma CategorizeShortCircuit(inp: CategoryInput)
    requires ExtractedSubcategory(inp.extracted).Some?
    requires CategoryOf(ExtractedSubcategory(inp.extracted).value).Some?
    ensures Categorize(inp) == (CategoryOf(ExtractedSubcategory(inp.extracted).value).value, [ExtractedSubcategory(inp.extracted).value])
  {}

  lemma CategorizeRest(inp: CategoryInput)
    requires !(ExtractedSubcategory(inp.extracted).Some? && CategoryOf(ExtractedSubcategory(inp.extracted).value).Some?)
    ensures Categorize(inp) == FinishStep(PageStep(inp, InReStep(inp, LineStep(inp, ExtractedSubcategory(inp.extracted)))))
  {}

  method DetermineCategory(inp: CategoryInput) returns (category: string, subcategories: seq<string>)
    ensures (category, subcategories) == Categorize(inp)
  {
    category := Unknown;
    subcategories := [];
    ghost var ext := ExtractedSubcategory(inp.extracted);
    if inp.extracted.Some? && inp.extracted.value != [] {
      var sub := NormalizeSubcategory(inp.extracted.value);
      if sub in ReferenceNames {
        sub := SpecialReferenceCase;
      }
      assert ext == Some(sub);
      subcategories := [sub];
      category := FindCategory(sub, category);
      CategoryKnown(sub);
      if category != Unknown {
        CategorizeShortCircuit(inp);
        return;
      }
    }
    assert subcategories == AsList(ext) && category == Unknown;
    var line := ScanLines(TargetLines(inp.lineMatches));
    if line.Some? {
      subcategories := subcategories + [line.value];
      category := FindCategory(line.value, category);
    } else {
      assert subcategories == AsList(ext) + AsList(line);
    }
    assert (category, subcategories) == LineStep(inp, ext);
    category, subcategories := Fallbacks(inp, category, subcategories);
    CategorizeRest(inp);
  }

  /** The steps after the first seven lines: the In Re table, the first
      page, then the back-fill and the "Unknown" list. */
  method Fallbacks(inp: CategoryInput, category0: string, subcategories0: seq<string>)
    returns (category: string, subcategories: seq<string>)
    requires subcategories0 == [] ==> category0 == Unknown
    ensures (category, subcategories) == FinishStep(PageStep(inp, InReStep(inp, (category0, subcategories0))))
  {
    category, subcategories := category0, subcategories0;
    if subcategories == [] && inp.titleIsInRe {
      var inRe := ScanInRe(inp.inReHits);
      if inRe.Some? {
        subcategories := [inRe.value];
        category := InReCategory(inRe.value);
      }
    }
    assert (category, subcategories) == InReStep(inp, (category0, subcategories0));
    if subcategories == [] {
      assert category == Unknown;
      var page, pageCategory := ScanFirstPage(Categories, inp.pageHits, category);
      assert page != [] ==> CategoryName(CategoryOf(page[0])) == pageCategory;
      subcategories := page;
      category := pageCategory;
    }
    ghost var st := PageStep(inp, InReStep(inp, (category0, subcategories0)));
    assert (category, subcategories) == st;
    if category == Unknown && subcategories != [] {
      var backfill := FindBackfill(subcategories);
      if backfill.Some? {
        category := backfill.value;
      }
    }
    if subcategories == [] {
      subcategories := [Unknown];
    }
  }

  // ---------------------------------------------------------------------
  // What `determine_category_subcategory` promises
  // ---------------------------------------------------------------------

  /** The resolved name is never one of the names the lookup rewrites. */
  lemma ResolveNeverReference(raw: string)
    ensures Resolve(raw) !in ReferenceNames
  {
  }

  /** An entry of the flattened lists comes from one of the lists. */
  lemma {:induction false} FlatMember(cats: seq<(string, seq<string>)>, x: string)
    requires x in Flat(cats)
    ensures exists i :: 0 <= i < |cats| && x in cats[i].1
  {
    var p := cats[..|cats| - 1];
    if x in Flat(p) {
      FlatMember(p, x);
      var i :| 0 <= i < |p| && x in p[i].1;
      assert cats[i] == p[i];
    } else {
      assert x in cats[|cats| - 1].1;
    }
  }

  /** The category is "Unknown" exactly when no listed subcategory has a
      category, and otherwise it is the category of one of them. */
  predicate Agrees(st: (string, seq<string>)) {
    (st.0 == Unknown <==> forall i :: 0 <= i < |st.1| ==> CategoryOf(st.1[i]).None?) &&
    (st.0 != Unknown ==> exists i :: 0 <= i < |st.1| && CategoryOf(st.1[i]) == Some(st.0))
  }

  lemma LineStepAgrees(inp: CategoryInput, ext: Option<string>)
    requires ext.Some? ==> CategoryOf(ext.value).None?
    ensures Agrees(LineStep(inp, ext))
  {
    var line := LineSubcategory(TargetLines(inp.lineMatches));
    var st := LineStep(inp, ext);
    if line.Some? {
      CategoryKnown(line.value);
      assert st.1[|st.1| - 1] == line.value;
    }
  }

  lemma InReStepAgrees(inp: CategoryInput, st: (string, seq<string>))
    requires Agrees(st)
    ensures Agrees(InReStep(inp, st))
  {
    var hit := FirstIn(InReNames, inp.inReHits);
    if st.1 == [] && inp.titleIsInRe && hit.Some? {
      InReCategoryAgrees(hit.value);
      CategoryKnown(hit.value);
      assert InReStep(inp, st).1[0] == hit.value;
    }
  }

  lemma PageStepAgrees(inp: CategoryInput, st: (string, seq<string>))
    requires Agrees(st)
    ensures Agrees(PageStep(inp, st))
  {
    var page := PageHits(inp.pageHits);
    if st.1 == [] && page != [] {
      assert page[0] in page;
      FlatMember(Categories, page[0]);
      CategoryKnown(page[0]);
    }
  }

  /** With the category still "Unknown", no found subcategory is in any
      list, so the back-fill finds nothing. */
  lemma BackfillFindsNothing(st: (string, seq<string>))
    requires Agrees(st) && st.0 == Unknown
    ensures Backfill(Categories, st.1).None?
  {
    forall i, s | 0 <= i < |Categories| && s in st.1 ensures s !in Categories[i].1 {
      var j :| 0 <= j < |st.1| && st.1[j] == s;
      assert CategoryOf(st.1[j]).None?;
    }
  }

  lemma FinishStepAgrees(st: (string, seq<string>))
    requires Agrees(st)
    ensures Agrees(FinishStep(st)) && FinishStep(st).0 == st.0
    ensures FinishStep(st).1 != []
  {
    if st.0 == Unknown && st.1 != [] {
      BackfillFindsNothing(st);
    }
    if st.1 == [] {
      UnknownUnlisted();
      assert FinishStep(st).1 == [Unknown];
    }
  }

  /** "Unknown" is in no category list. */
  lemma UnknownUnlisted()
    ensures CategoryOf(Unknown).None?
  {
    CategoryOfCases(Unknown);
  }

  /** The list of subcategories is never empty; the category is "Unknown"
      exactly when none of them is in a category list, and otherwise it is
      the category of one of them. */
  lemma CategorizeAgrees(inp: CategoryInput)
    ensures Categorize(inp).1 != []
    ensures Categorize(inp).0 == Unknown <==>
      forall i :: 0 <= i < |Categorize(inp).1| ==> CategoryOf(Categorize(inp).1[i]).None?
    ensures Categorize(inp).0 != Unknown ==>
      exists i :: 0 <= i < |Categorize(inp).1| && CategoryOf(Categorize(inp).1[i]) == Some(Categorize(inp).0)
  {
    var ext := ExtractedSubcategory(inp.extracted);
    if ext.Some? && CategoryOf(ext.value).Some? {
      CategoryKnown(ext.value);
      assert Categorize(inp).1[0] == ext.value;
    } else {
      CategorizeRest(inp);
      LineStepAgrees(inp, ext);
      InReStepAgrees(inp, LineStep(inp, ext));
      PageStepAgrees(inp, InReStep(inp, LineStep(inp, ext)));
      FinishStepAgrees(PageStep(inp, InReStep(inp, LineStep(inp, ext))));
    }
  }

  /** The back-fill never changes the category: whenever it runs, the
      category found before it stands. */
  lemma BackfillNeverChanges(inp: CategoryInput)
    requires !(ExtractedSubcategory(inp.extracted).Some? && CategoryOf(ExtractedSubcategory(inp.extracted).value).Some?)
    ensures Categorize(inp).0 == PageStep(inp, InReStep(inp, LineStep(inp, ExtractedSubcategory(inp.extracted)))).0
  {
    var ext := ExtractedSubcategory(inp.extracted);
    CategorizeRest(inp);
    LineStepAgrees(inp, ext);
    InReStepAgrees(inp, LineStep(inp, ext));
    PageStepAgrees(inp, InReStep(inp, LineStep(inp, ext)));
    FinishStepAgrees(PageStep(inp, InReStep(inp, LineStep(inp, ext))));
  }

  /** With nothing found by any search, the result is ("Unknown", ["Unknown"]). */
  lemma CategorizeNothingFound(inp: CategoryInput)
    requires ExtractedSubcategory(inp.extracted).None?
    requires LineSubcategory(TargetLines(inp.lineMatches)).None?
    requires !inp.titleIsInRe || FirstIn(InReNames, inp.inReHits).None?
    requires PageHits(inp.pageHits) == []
    ensures Categorize(inp) == (Unknown, [Unknown])
  {
    CategorizeRest(inp);
  }

  // ---------------------------------------------------------------------
  // First-match tables: `get_legal_actions` and the identity of a party
  // ---------------------------------------------------------------------

  /** Some alternative of `alts` occurs in `low`. */
  predicate Mentions(low: string, alts: seq<string>) {
    exists a :: a in alts && Contains(low, a)
  }

  /** Entry `i` is the first whose alternatives `low` mentions. */
  predicate MentionedFirst<T>(low: string, table: seq<(seq<string>, T)>, i: nat)
    requires i < |table|
  {
    Mentions(low, table[i].0) && forall j :: 0 <= j < i ==> !Mentions(low, table[j].0)
  }

  /** The value of the first entry whose alternatives `low` mentions, or
      `default` when it mentions none. */
  function FirstMentioned<T>(low: string, table: seq<(seq<string>, T)>, default: T): (r: T)
    ensures (forall i :: 0 <= i < |table| ==> !Mentions(low, table[i].0)) ==> r == default
    ensures forall i :: 0 <= i < |table| && MentionedFirst(low, table, i) ==> r == table[i].1
  {
    if table == [] then default
    else if Mentions(low, table[0].0) then table[0].1
    else
      var r := FirstMentioned(low, table[1..], default);
      assert forall i :: 1 <= i < |table| ==> table[i] == table[1..][i - 1];
      r
  }

  /** The `actions` dict of `get_legal_actions`, in its order: the
      alternatives of each pattern and the (filer, against) pair. */
  const ActionTable: seq<(seq<string>, (string, string))> := [
    (["civil appeal"], ("Filed a Civil Appeal", "Contested the Appeal")),
    (["criminal appeal", "appeal"], ("Filed a Criminal Appeal", "Contested the Appeal")),
    (["writ petition"], ("Filed a Writ Petition", "Opposed the Writ Petition")),
    (["special leave petition", "slp"], ("Filed a Special Leave Petition", "Opposed the Special Leave Petition")),
    (["revision petition"], ("Filed a Revision Petition", "Opposed the Revision Petition")),
    (["suit"], ("Filed a Suit", "Defended the Suit")),
    (["complaint"], ("Filed a Complaint", "Opposed the Complaint")),
    (["bail application"], ("Filed a Bail Application", "Opposed the Bail Application")),
    (["arbitration petition"], ("Filed an Arbitration Petition", "Opposed the Arbitration Petition"))]

  const DefaultActions := ("Filed a Petition/Appeal", "Opposed the Petition/Appeal")

  /** `get_legal_actions`: the pair of the first pattern found in the
      lower-cased text, or the default pair. */
  function LegalActions(text: string): (string, string) {
    FirstMentioned(Lower(text), ActionTable, DefaultActions)
  }

  method GetLegalActions(text: string) returns (filer: string, against: string)
    ensures (filer, against) == LegalActions(text)
  {
    var pair := FindFirstMentioned(Lower(text), ActionTable, DefaultActions);
    filer, against := pair.0, pair.1;
  }

  /** The loop over a first-match table: the value of the first entry one
      of whose alternatives occurs in `low`, or `default`. */
  method FindFirstMentioned<T>(low: string, table: seq<(seq<string>, T)>, default: T) returns (r: T)
    ensures r == FirstMentioned(low, table, default)
  {
    for k := 0 to |table|
      invariant FirstMentioned(low, table, default) == FirstMentioned(low, table[k..], default)
    {
      assert table[k..][1..] == table[k + 1..];
      if exists a :: a in table[k].0 && Contains(low, a) {
        return table[k].1;
      }
    }
    return default;
  }

  /** A table whose first two entries are looked up by `first` and
      `second`. */
  lemma FirstTwoEntries<T>(low: string, table: seq<(seq<string>, T)>, default: T, first: string, second: string)
    requires |table| >= 2 && table[0].0 == [first] && second in table[1].0
    ensures Contains(low, first) ==> FirstMentioned(low, table, default) == table[0].1
    ensures !Contains(low, first) && Contains(low, second) ==> FirstMentioned(low, table, default) == table[1].1
  {
    if Contains(low, first) {
      assert Mentions(low, table[0].0);
    } else if Contains(low, second) {
      assert !Mentions(low, table[0].0);
      assert Mentions(low, table[1].0);
    }
  }

  /** A text that speaks of an appeal gets the "Contested the Appeal"
      action against; "civil appeal" makes it a civil appeal, and any other
      appeal is filed as a criminal appeal. */
  lemma AppealActions(text: string)
    ensures Contains(Lower(text), "civil appeal") ==>
      LegalActions(text) == ("Filed a Civil Appeal", "Contested the Appeal")
    ensures !Contains(Lower(text), "civil appeal") && Contains(Lower(text), "appeal") ==>
      LegalActions(text) == ("Filed a Criminal Appeal", "Contested the Appeal")
  {
    FirstTwoEntries(Lower(text), ActionTable, DefaultActions, "civil appeal", "appeal");
  }

  /** A text that mentions no pattern gets the default pair. */
  lemma NoActionPattern(text: string)
    requires forall i :: 0 <= i < |ActionTable| ==> !Mentions(Lower(text), ActionTable[i].0)
    ensures LegalActions(text) == DefaultActions
  {
  }

  const IndividualIndicators: seq<string> := ["s/o", "d/o", "w/o", "aged", "years old"]
  const OrganizationIndicators: seq<string> :=
    ["ltd", "limited", "corporation", "company", "pvt", "llp", "inc", "represented by"]
  const GovernmentIndicators: seq<string> := ["state of", "government", "union of", "ministry", "department"]

  const IdentityTable: seq<(seq<string>, string)> := [
    (IndividualIndicators, "Individual"), (OrganizationIndicators, "Organization"),
    (GovernmentIndicators, "Government")]

  /** The identity of a party: the first kind whose indicator occurs in
      the lower-cased name, else "Other". */
  function Identity(name: string): string {
    FirstMentioned(Lower(name), IdentityTable, "Other")
  }

  /** Individual indicators win over organisation ones, which win over
      government ones; a name with none of them is "Other". */
  lemma IdentityCases(name: string)
    ensures Identity(name) == "Individual" <==> Mentions(Lower(name), IndividualIndicators)
    ensures Identity(name) == "Organization" <==>
      !Mentions(Lower(name), IndividualIndicators) && Mentions(Lower(name), OrganizationIndicators)
    ensures Identity(name) == "Government" <==>
      !Mentions(Lower(name), IndividualIndicators) && !Mentions(Lower(name), OrganizationIndicators) &&
      Mentions(Lower(name), GovernmentIndicators)
    ensures Identity(name) == "Other" <==>
      !Mentions(Lower(name), IndividualIndicators) && !Mentions(Lower(name), OrganizationIndicators) &&
      !Mentions(Lower(name), GovernmentIndicators)
  {
    var low := Lower(name);
    assert IdentityTable[0].0 == IndividualIndicators;
    assert IdentityTable[1].0 == OrganizationIndicators;
    assert IdentityTable[2].0 == GovernmentIndicators;
  }

  // ---------------------------------------------------------------------
  // `extract_party_info`
  // ---------------------------------------------------------------------

  const FiledByKey := "Party Details (Program 2) - Filed By"
  const AgainstWhoKey := "Party Details (Program 2) - Against Who"
  const FilerActionKey := "Party Details (Program 2) - Filer Action"
  const AgainstActionKey := "Party Details (Program 2) - Against Action"
  const FilerNameKey := "Party Details (Program 2) - Filer Name"
  const AgainstNameKey := "Party Details (Program 2) - Against Name"
  const FilerIdentityKey := "Party Details (Program 2) - Filer Identity"
  const FilerOtherKey := "Party Details (Program 2) - Filer Other Attributes"
  const AgainstIdentityKey := "Party Details (Program 2) - Against Identity"
  const AgainstOtherKey := "Party Details (Program 2) - Against Other Attributes"

  const PartyKeys: seq<string> := [
    FiledByKey, AgainstWhoKey, FilerActionKey, AgainstActionKey, FilerNameKey, AgainstNameKey,
    FilerIdentityKey, FilerOtherKey, AgainstIdentityKey, AgainstOtherKey]

  /** The ten party fields, each set to `v`. */
  function PartyDefaults(v: string): (d: Record)
    ensures Keys(d) == PartyKeys
  {
    seq(|PartyKeys|, i requires 0 <= i < |PartyKeys| => (PartyKeys[i], Str(v)))
  }

  /** The names each search proposes, already passed through
      `remove_statute_names` and `clean_party_name`. */
  datatype NameCandidates = NameCandidates(
    // both groups of the title pattern, when it matched
    title: Option<(string, string)>,
    // the first petitioner/appellant/plaintiff and respondent/defendant
    // keyword matches
    filerKeyword: Option<string>,
    againstKeyword: Option<string>,
    // the PERSON, ORG and GPE entities of the first 5000 characters
    entities: seq<string>)

  /** A name Python treats as false: `None` or empty. */
  predicate Blank(o: Option<string>) {
    o.None? || o.value == []
  }

  predicate BlankBefore(cands: seq<Option<string>>, i: nat)
    requires i <= |cands|
  {
    forall j :: 0 <= j < i ==> Blank(cands[j])
  }

  /** The first candidate that is present and not empty. */
  function FirstNonEmpty(cands: seq<Option<string>>): (r: Option<string>)
    ensures r.None? <==> forall i :: 0 <= i < |cands| ==> Blank(cands[i])
    ensures r.Some? ==> r.value != [] && exists i :: 0 <= i < |cands| && cands[i] == r && BlankBefore(cands, i)
  {
    if cands == [] then None
    else if !Blank(cands[0]) then cands[0]
    else
      var r := FirstNonEmpty(cands[1..]);
      assert forall i :: 1 <= i < |cands| ==> cands[i] == cands[1..][i - 1];
      r
  }

  function Nth(s: seq<string>, i: nat): Option<string> {
    if i < |s| then Some(s[i]) else None
  }

  /** The filer: the title's first group, else the keyword match, else the
      first entity; a name left empty counts as not found. */
  function FilerName(nc: NameCandidates): Option<string> {
    FirstNonEmpty([if nc.title.Some? then Some(nc.title.value.0) else None, nc.filerKeyword, Nth(nc.entities, 0)])
  }

  /** The opposing party: the title's second group, else the keyword
      match, else the second entity. */
  function AgainstName(nc: NameCandidates): Option<string> {
    FirstNonEmpty([if nc.title.Some? then Some(nc.title.value.1) else None, nc.againstKeyword, Nth(nc.entities, 1)])
  }

  /** `extract_party_info`: the defaults, and with both names found the
      names, the roles, the actions and the identities. */
  function PartyInfo(text: string, nc: NameCandidates): Record {
    var details := PartyDefaults(Unknown);
    var filer := FilerName(nc);
    var against := AgainstName(nc);
    if filer.Some? && against.Some? then Fill(details, filer.value, against.value, LegalActions(text))
    else details
  }

  /** The `details.update(...)` with the names, roles and actions, then
      the two identities. */
  function Fill(details: Record, filer: string, against: string, actions: (string, string)): Record {
    var details := Update(details, [
      (FilerNameKey, Str(filer)), (AgainstNameKey, Str(against)),
      (FiledByKey, Str("Petitioner/Appellant")), (AgainstWhoKey, Str("Respondent/Defendant")),
      (FilerActionKey, Str(actions.0)), (AgainstActionKey, Str(actions.1))]);
    var details := Put(details, FilerIdentityKey, Str(Identity(filer)));
    Put(details, AgainstIdentityKey, Str(Identity(against)))
  }

  /** The party fields written out in key order: `v` for every field, or,
      with both names, the filled-in fields. */
  function PartyFields(filer: string, against: string, actions: (string, string)): (r: Record)
    ensures Keys(r) == PartyKeys
  {
    [(FiledByKey, Str("Petitioner/Appellant")), (AgainstWhoKey, Str("Respondent/Defendant")),
     (FilerActionKey, Str(actions.0)), (AgainstActionKey, Str(actions.1)),
     (FilerNameKey, Str(filer)), (AgainstNameKey, Str(against)),
     (FilerIdentityKey, Str(Identity(filer))), (FilerOtherKey, Str(Unknown)),
     (AgainstIdentityKey, Str(Identity(against))), (AgainstOtherKey, Str(Unknown))]
  }

  /** Every field is "Unknown" unless both names are found; then the fields
      hold the names, the two roles, the legal actions of the text and the
      identities of the names, and the "Other Attributes" stay "Unknown".
      The keys keep their order either way. */
  lemma PartyInfoFields(text: string, nc: NameCandidates)
    ensures FilerName(nc).None? || AgainstName(nc).None? ==> PartyInfo(text, nc) == PartyDefaults(Unknown)
    ensures FilerName(nc).Some? && AgainstName(nc).Some? ==>
      PartyInfo(text, nc) == PartyFields(FilerName(nc).value, AgainstName(nc).value, LegalActions(text))
  {
    if FilerName(nc).Some? && AgainstName(nc).Some? {
      FillDefaults(FilerName(nc).value, AgainstName(nc).value, LegalActions(text));
    }
  }

  /** Filling the defaults gives the filled-in record. */
  lemma FillDefaults(filer: string, against: string, actions: (string, string))
    ensures Fill(PartyDefaults(Unknown), filer, against, actions) == PartyFields(filer, against, actions)
  {
    var d := PartyDefaults(Unknown);
    var e := [
      (FilerNameKey, Str(filer)), (AgainstNameKey, Str(against)),
      (FiledByKey, Str("Petitioner/Appellant")), (AgainstWhoKey, Str("Respondent/Defendant")),
      (FilerActionKey, Str(actions.0)), (AgainstActionKey, Str(actions.1))];
    var u := UpdateParty(d, e);
    u := PutField(u, 6, Str(Identity(filer)));
    u := PutField(u, 8, Str(Identity(against)));
    FilledFields(u, filer, against, actions);
  }

  /** The defaults with the filled-in fields replaced are the filled-in
      record. */
  lemma FilledFields(u: Record, filer: string, against: string, actions: (string, string))
    requires u == PartyDefaults(Unknown)[4 := (FilerNameKey, Str(filer))][5 := (AgainstNameKey, Str(against))]
      [0 := (FiledByKey, Str("Petitioner/Appellant"))][1 := (AgainstWhoKey, Str("Respondent/Defendant"))]
      [2 := (FilerActionKey, Str(actions.0))][3 := (AgainstActionKey, Str(actions.1))]
      [6 := (FilerIdentityKey, Str(Identity(filer)))][8 := (AgainstIdentityKey, Str(Identity(against)))]
    ensures u == PartyFields(filer, against, actions)
  {
    FilledWith(u, filer, against, actions, Identity(filer), Identity(against));
  }

  /** The same, with the two identities given. */
  lemma FilledWith(u: Record, filer: string, against: string, actions: (string, string), fi: string, ai: string)
    requires u == PartyDefaults(Unknown)[4 := (FilerNameKey, Str(filer))][5 := (AgainstNameKey, Str(against))]
      [0 := (FiledByKey, Str("Petitioner/Appellant"))][1 := (AgainstWhoKey, Str("Respondent/Defendant"))]
      [2 := (FilerActionKey, Str(actions.0))][3 := (AgainstActionKey, Str(actions.1))]
      [6 := (FilerIdentityKey, Str(fi))][8 := (AgainstIdentityKey, Str(ai))]
    ensures u == [(FiledByKey, Str("Petitioner/Appellant")), (AgainstWhoKey, Str("Respondent/Defendant")),
      (FilerActionKey, Str(actions.0)), (AgainstActionKey, Str(actions.1)),
      (FilerNameKey, Str(filer)), (AgainstNameKey, Str(against)),
      (FilerIdentityKey, Str(fi)), (FilerOtherKey, Str(Unknown)),
      (AgainstIdentityKey, Str(ai)), (AgainstOtherKey, Str(Unknown))]
  {
    var d := PartyDefaults(Unknown);
    assert d[7] == (FilerOtherKey, Str(Unknown));
    assert d[9] == (AgainstOtherKey, Str(Unknown));
  }

  lemma PartyKeysDistinct()
    ensures Distinct(PartyKeys)
  {
  }

  /** Setting a party field of a record with the party keys replaces that
      field in place; the keys stay the same. */
  lemma PutField(d: Record, j: nat, v: Value) returns (r: Record)
    requires Keys(d) == PartyKeys && j < |PartyKeys|
    ensures r == Put(d, PartyKeys[j], v) == d[j := (PartyKeys[j], v)]
    ensures Keys(r) == PartyKeys
  {
    PartyKeysDistinct();
    PutAt(d, j, PartyKeys[j], v);
    r := d[j := (PartyKeys[j], v)];
    assert forall i :: 0 <= i < |r| ==> Keys(r)[i] == PartyKeys[i];
  }

  /** One more entry of the update, put in place at field `j`. */
  lemma UpdateStep(d: Record, e: Record, n: nat, u: Record, j: nat) returns (r: Record)
    requires 0 < n <= |e| && u == Update(d, e[..n - 1]) && Keys(u) == PartyKeys
    requires j < |PartyKeys| && e[n - 1].0 == PartyKeys[j]
    ensures r == Update(d, e[..n]) == u[j := e[n - 1]]
    ensures Keys(r) == PartyKeys
  {
    UpdatePrefix(d, e, n);
    r := PutField(u, j, e[n - 1].1);
  }

  /** The names and roles: the first four entries of the update. */
  lemma UpdateNames(d: Record, e: Record) returns (r: Record)
    requires Keys(d) == PartyKeys && |e| == 6
    requires e[0].0 == PartyKeys[4] && e[1].0 == PartyKeys[5] && e[2].0 == PartyKeys[0] && e[3].0 == PartyKeys[1]
    ensures r == Update(d, e[..4]) == d[4 := e[0]][5 := e[1]][0 := e[2]][1 := e[3]]
    ensures Keys(r) == PartyKeys
  {
    assert e[..0] == [];
    r := UpdateStep(d, e, 1, d, 4);
    r := UpdateStep(d, e, 2, r, 5);
    r := UpdateStep(d, e, 3, r, 0);
    r := UpdateStep(d, e, 4, r, 1);
  }

  /** The two actions: the last two entries of the update. */
  lemma UpdateActions(d: Record, e: Record, u: Record) returns (r: Record)
    requires Keys(u) == PartyKeys && |e| == 6 && u == Update(d, e[..4])
    requires e[4].0 == PartyKeys[2] && e[5].0 == PartyKeys[3]
    ensures r == Update(d, e) == u[2 := e[4]][3 := e[5]]
    ensures Keys(r) == PartyKeys
  {
    r := UpdateStep(d, e, 5, u, 2);
    r := UpdateStep(d, e, 6, r, 3);
    assert e[..6] == e;
  }

  /** The `details.update(...)` of `extract_party_info`, one entry at a time. */
  lemma UpdateParty(d: Record, e: Record) returns (r: Record)
    requires Keys(d) == PartyKeys && |e| == 6
    requires e[0].0 == PartyKeys[4] && e[1].0 == PartyKeys[5] && e[2].0 == PartyKeys[0]
    requires e[3].0 == PartyKeys[1] && e[4].0 == PartyKeys[2] && e[5].0 == PartyKeys[3]
    ensures r == Update(d, e)
    ensures r == d[4 := e[0]][5 := e[1]][0 := e[2]][1 := e[3]][2 := e[4]][3 := e[5]]
    ensures Keys(r) == PartyKeys
  {
    var u := UpdateNames(d, e);
    u := UpdateActions(d, e, u);
    assert e[..6] == e;
    r := u;
  }

  // ---------------------------------------------------------------------
  // `extract_hearing_dates`
  // ---------------------------------------------------------------------

  /** What the date searches found. */
  datatype HearingInput = HearingInput(
    // the dates after a hearing keyword, in order
    contextDates: seq<string>,
    // the texts of the spaCy DATE entities of the first 5000 characters
    dateEntities: seq<string>,
    // every match of the date pattern in the text
    allDates: seq<string>)

  function InList(xs: seq<string>): string -> bool {
    s => s in xs
  }

  /** The dates before deduplication: the hearing-context dates, or when
      there are none the DATE entities that are date-pattern matches. */
  function DateSource(h: HearingInput): seq<string> {
    if h.contextDates != [] then h.contextDates else Filter(h.dateEntities, InList(h.allDates))
  }

  /** `extract_hearing_dates`: the dates and their number. */
  method ExtractHearingDates(h: HearingInput) returns (dates: seq<string>, count: nat)
    ensures dates == Dedup(DateSource(h)) && count == |dates|
  {
    var found := h.contextDates;
    if found == [] {
      for i := 0 to |h.dateEntities|
        invariant found == Filter(h.dateEntities[..i], InList(h.allDates))
      {
        FilterSnoc(h.dateEntities[..i], h.dateEntities[i], InList(h.allDates));
        assert h.dateEntities[..i + 1] == h.dateEntities[..i] + [h.dateEntities[i]];
        if h.dateEntities[i] in h.allDates {
          found := found + [h.dateEntities[i]];
        }
      }
      assert h.dateEntities[..|h.dateEntities|] == h.dateEntities;
    }
    dates := Dedup(found);
    count := |dates|;
  }

  /** The two cells: the dates joined with ", " and their number, each
      "Unknown" when there is no date. */
  function HearingCells(dates: seq<string>): (Value, Value) {
    (if dates != [] then Str(Join(dates, ", ")) else Str(Unknown),
     if |dates| > 0 then Num(|dates|) else Str(Unknown))
  }

  /** The dates are the distinct source dates, each once, in order of first
      occurrence; their number is the number of distinct source dates, and
      it reads "Unknown" exactly when there is none. */
  lemma HearingDatesFacts(h: HearingInput)
    ensures Distinct(Dedup(DateSource(h)))
    ensures forall x :: x in Dedup(DateSource(h)) <==> x in DateSource(h)
    ensures |Dedup(DateSource(h))| == |set x | x in DateSource(h)|
    ensures HearingCells(Dedup(DateSource(h))).1 ==
      if DateSource(h) == [] then Str(Unknown) else Num(|set x | x in DateSource(h)|)
    ensures DateSource(h) == [] ==> HearingCells(Dedup(DateSource(h))).0 == Str(Unknown)
  {
    var src := DateSource(h);
    var d := Dedup(src);
    DistinctCard(d);
    assert (set x | x in d) == (set x | x in src);
    if src != [] {
      assert src[0] in d;
    }
  }

  // ---------------------------------------------------------------------
  // `extract_parties`
  // ---------------------------------------------------------------------

  const CitationKey := "Citation (Program 2)"
  const TitleKey := "Case Title (Program 2)"
  const DatesKey := "Hearing Dates (Program 2)"
  const CountKey := "Number of Hearings (Program 2)"
  const CategoryKey := "Category (Program 2)"
  const SubcategoryKey := "Subcategory (Program 2)"

  const ResultKeys: seq<string> :=
    [CitationKey, TitleKey, DatesKey, CountKey, CategoryKey, SubcategoryKey] + PartyKeys

  /** The six leading fields, in the order of the initial dict. */
  function Head(citation: string, title: string, dates: Value, count: Value, category: string, subcategory: string): Record {
    [(CitationKey, Str(citation)), (TitleKey, Str(title)), (DatesKey, dates), (CountKey, count),
     (CategoryKey, Str(category)), (SubcategoryKey, Str(subcategory))]
  }

  /** The initial dict: "Unknown" leading fields and "None" party fields. */
  function Initial(): Record {
    Head(Unknown, Unknown, Str(Unknown), Str(Unknown), Unknown, Unknown) + PartyDefaults("None")
  }

  /** What the PDF reader, the splitter and the searches give for one file. */
  datatype PartiesDoc = PartiesDoc(
    text: string,
    paragraphs: seq<string>,
    // the citation and title `extract_case_title` returns; its third
    // result is `categories.extracted`
    citation: string,
    caseTitle: string,
    // the title matches the versus pattern
    hasVersus: bool,
    names: NameCandidates,
    // `categories.titleIsInRe` is the In Re test on the title
    categories: CategoryInput,
    hearing: HearingInput)

  /** `extract_parties`. The reader catches its own errors and gives an
      empty text, so an unreadable PDF is a `Success` with `text == []`;
      a `Failure` stands for an exception raised by a later step, which
      the outer handler turns into its message. */
  function ExtractParties(doc: Result<PartiesDoc>): Record {
    if doc.Failure? then [(ErrorKey, Str(doc.error))]
    else if doc.value.text == [] then [(ErrorKey, Str("No text extracted from PDF"))]
    else if doc.value.paragraphs == [] then [(ErrorKey, Str("No paragraphs extracted from PDF"))]
    else
      var d := doc.value;
      var details := Put(Put(Initial(), CitationKey, Str(d.citation)), TitleKey, Str(d.caseTitle));
      var details := WithParties(details, d);
      var details := WithCategory(details, Categorize(d.categories));
      WithHearing(details, Dedup(DateSource(d.hearing)))
  }

  /** No party update for an In Re title; with a versus title the party
      fields are updated; otherwise only when the filer name is not
      "Unknown". */
  function WithParties(details: Record, d: PartiesDoc): Record {
    var info := PartyInfo(d.text, d.names);
    if d.categories.titleIsInRe then details
    else if d.hasVersus then Update(details, info)
    else if Lookup(info, FilerNameKey) != Some(Str(Unknown)) then Update(details, info)
    else details
  }

  function WithCategory(details: Record, found: (string, seq<string>)): Record {
    var details := Put(details, CategoryKey, Str(found.0));
    Put(details, SubcategoryKey, Str(if found.1 != [] then Join(found.1, ", ") else Unknown))
  }

  function WithHearing(details: Record, dates: seq<string>): Record {
    var details := Put(details, DatesKey, HearingCells(dates).0);
    Put(details, CountKey, HearingCells(dates).1)
  }

  /** The party fields `extract_parties` ends with: "None" for an In Re
      title; with both names found and a versus title or a filer not named
      "Unknown", the filled-in fields; with a versus title otherwise the
      "Unknown" defaults; and "None" otherwise. */
  function PartyOutcome(d: PartiesDoc): Record {
    var filer := FilerName(d.names);
    var against := AgainstName(d.names);
    if d.categories.titleIsInRe then PartyDefaults("None")
    else if filer.Some? && against.Some? && (d.hasVersus || filer.value != Unknown) then
      PartyFields(filer.value, against.value, LegalActions(d.text))
    else if d.hasVersus then PartyDefaults(Unknown)
    else PartyDefaults("None")
  }

  /** The errors of `extract_parties`: the message of an exception from a
      step after the reader, no text (which is also what an unreadable PDF
      gives), or no paragraphs, each as the only entry. */
  lemma ExtractPartiesErrors(doc: Result<PartiesDoc>)
    ensures doc.Failure? ==> ExtractParties(doc) == [(ErrorKey, Str(doc.error))]
    ensures doc.Success? && doc.value.text == [] ==>
      ExtractParties(doc) == [(ErrorKey, Str("No text extracted from PDF"))]
    ensures doc.Success? && doc.value.text != [] && doc.value.paragraphs == [] ==>
      ExtractParties(doc) == [(ErrorKey, Str("No paragraphs extracted from PDF"))]
  {
  }

  /** For a readable document, the record holds the sixteen fields in the
      order of the initial dict: the citation and title, the hearing cells,
      the category, the subcategories joined with ", ", then the party
      fields. */
  lemma ExtractPartiesRecord(doc: Result<PartiesDoc>)
    requires doc.Success? && doc.value.text != [] && doc.value.paragraphs != []
    ensures ExtractParties(doc) == Head(doc.value.citation, doc.value.caseTitle,
      HearingCells(Dedup(DateSource(doc.value.hearing))).0, HearingCells(Dedup(DateSource(doc.value.hearing))).1,
      Categorize(doc.value.categories).0, Join(Categorize(doc.value.categories).1, ", ")) + PartyOutcome(doc.value)
    ensures Keys(ExtractParties(doc)) == ResultKeys
  {
    var d := doc.value;
    var h := Head(d.citation, d.caseTitle, Str(Unknown), Str(Unknown), Unknown, Unknown);
    TitleStage(d);
    PartyStage(d, h);
    var found := Categorize(d.categories);
    CategorizeAgrees(d.categories);
    var dates := Dedup(DateSource(d.hearing));
    var r := LastStages(d.citation, d.caseTitle, PartyOutcome(d), found, dates);
  }

  /** The citation and title are the first two fields of the initial dict. */
  lemma TitleStage(d: PartiesDoc)
    ensures Put(Put(Initial(), CitationKey, Str(d.citation)), TitleKey, Str(d.caseTitle)) ==
      Head(d.citation, d.caseTitle, Str(Unknown), Str(Unknown), Unknown, Unknown) + PartyDefaults("None")
  {
    var i0 := Initial();
    assert Keys(i0) == ResultKeys by {
      assert forall i :: 0 <= i < |i0| ==> Keys(i0)[i] == ResultKeys[i];
    }
    var i1 := PutResult(i0, 0, Str(d.citation));
    var i2 := PutResult(i1, 1, Str(d.caseTitle));
  }

  /** The party update leaves the leading fields and gives the party
      outcome. */
  lemma PartyStage(d: PartiesDoc, h: Record)
    requires |h| == 6 && Keys(h) == ResultKeys[..6]
    ensures WithParties(h + PartyDefaults("None"), d) == h + PartyOutcome(d)
  {
    var info := PartyInfo(d.text, d.names);
    var t := PartyDefaults("None");
    OutcomeCases(d);
    if PartiesUpdated(d) {
      assert WithParties(h + t, d) == Update(h + t, info);
      InfoShape(d.text, d.names);
      JoinedKeys(h, t);
      UpdateTail(h, t, info);
    }
  }

  /** The party fields are taken from the party info: with a versus
      title, or when its filer name is not "Unknown"; never for In Re. */
  predicate PartiesUpdated(d: PartiesDoc) {
    !d.categories.titleIsInRe &&
    (d.hasVersus || Lookup(PartyInfo(d.text, d.names), FilerNameKey) != Some(Str(Unknown)))
  }

  /** The party outcome is the party info when the dict is updated with
      it, and the "None" defaults otherwise. */
  lemma OutcomeCases(d: PartiesDoc)
    ensures PartyOutcome(d) == if PartiesUpdated(d) then PartyInfo(d.text, d.names) else PartyDefaults("None")
  {
    if FilerName(d.names).Some? && AgainstName(d.names).Some? {
      OutcomeBothNames(d);
    } else {
      OutcomeMissingName(d);
    }
  }

  lemma OutcomeBothNames(d: PartiesDoc)
    requires FilerName(d.names).Some? && AgainstName(d.names).Some?
    ensures PartyOutcome(d) == if PartiesUpdated(d) then PartyInfo(d.text, d.names) else PartyDefaults("None")
  {
    var filer := FilerName(d.names).value;
    InfoShape(d.text, d.names);
    PartyInfoFields(d.text, d.names);
    if d.categories.titleIsInRe {
    } else if d.hasVersus || filer != Unknown {
      assert PartiesUpdated(d);
      assert PartyOutcome(d) == PartyFields(filer, AgainstName(d.names).value, LegalActions(d.text));
    } else {
      assert Str(filer) == Str(Unknown);
      assert !PartiesUpdated(d);
    }
  }

  lemma OutcomeMissingName(d: PartiesDoc)
    requires FilerName(d.names).None? || AgainstName(d.names).None?
    ensures PartyOutcome(d) == if PartiesUpdated(d) then PartyInfo(d.text, d.names) else PartyDefaults("None")
  {
    InfoShape(d.text, d.names);
    PartyInfoFields(d.text, d.names);
  }

  /** The party info has the party keys, and its filer name is "Unknown"
      unless both names are found. */
  lemma InfoShape(text: string, nc: NameCandidates)
    ensures Keys(PartyInfo(text, nc)) == PartyKeys
    ensures Lookup(PartyInfo(text, nc), FilerNameKey) ==
      Some(Str(if FilerName(nc).Some? && AgainstName(nc).Some? then FilerName(nc).value else Unknown))
  {
    PartyInfoFields(text, nc);
    if FilerName(nc).Some? && AgainstName(nc).Some? {
      FilerNameOfFields(FilerName(nc).value, AgainstName(nc).value, LegalActions(text));
    } else {
      FilerNameOfDefaults(Unknown);
    }
  }

  lemma FilerNameOfFields(filer: string, against: string, actions: (string, string))
    ensures Lookup(PartyFields(filer, against, actions), FilerNameKey) == Some(Str(filer))
  {
    FilerNameLookup(PartyFields(filer, against, actions));
  }

  lemma FilerNameOfDefaults(v: string)
    ensures Lookup(PartyDefaults(v), FilerNameKey) == Some(Str(v))
  {
    FilerNameLookup(PartyDefaults(v));
  }

  /** Six leading fields and the party fields have the result keys, each
      once. */
  lemma JoinedKeys(h: Record, p: Record)
    requires Keys(h) == ResultKeys[..6] && Keys(p) == PartyKeys
    ensures Keys(h + p) == ResultKeys && WellFormed(h + p)
  {
    ResultKeysDistinct();
    assert forall i :: 0 <= i < |h + p| ==> Keys(h + p)[i] == ResultKeys[i];
  }

  /** The category, subcategory and hearing puts fill in their fields. */
  lemma LastStages(citation: string, title: string, p: Record, found: (string, seq<string>), dates: seq<string>)
    returns (r: Record)
    requires Keys(p) == PartyKeys && found.1 != []
    ensures r == WithHearing(WithCategory(Head(citation, title, Str(Unknown), Str(Unknown), Unknown, Unknown) + p, found), dates)
    ensures r == Head(citation, title, HearingCells(dates).0, HearingCells(dates).1, found.0, Join(found.1, ", ")) + p
    ensures Keys(r) == ResultKeys
  {
    var i3 := Head(citation, title, Str(Unknown), Str(Unknown), Unknown, Unknown) + p;
    JoinedKeys(Head(citation, title, Str(Unknown), Str(Unknown), Unknown, Unknown), p);
    var i4 := PutResult(i3, 4, Str(found.0));
    var i5 := PutResult(i4, 5, Str(Join(found.1, ", ")));
    var i6 := PutResult(i5, 2, HearingCells(dates).0);
    r := PutResult(i6, 3, HearingCells(dates).1);
  }

  lemma ResultKeysDistinct()
    ensures Distinct(ResultKeys)
  {
  }

  /** Setting a field of a record with the result keys replaces that field
      in place. */
  lemma PutResult(d: Record, j: nat, v: Value) returns (r: Record)
    requires Keys(d) == ResultKeys && j < |ResultKeys|
    ensures r == Put(d, ResultKeys[j], v) == d[j := (ResultKeys[j], v)]
    ensures Keys(r) == ResultKeys
  {
    ResultKeysDistinct();
    PutAt(d, j, ResultKeys[j], v);
    r := d[j := (ResultKeys[j], v)];
    assert forall i :: 0 <= i < |r| ==> Keys(r)[i] == ResultKeys[i];
  }

  /** A record of party fields has the party keys, and the filer name is
      its fifth entry. */
  lemma FilerNameLookup(r: Record)
    requires Keys(r) == PartyKeys
    ensures Lookup(r, FilerNameKey) == Some(r[4].1)
  {
    PartyKeysDistinct();
    IndexOfUnique(Keys(r), FilerNameKey, 4);
  }
}
