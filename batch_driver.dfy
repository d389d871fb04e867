/** The resumable batch driver of main_2.py: preflight checks, selection of
    unprocessed PDFs against the progress ledger, batch numbering from the
    output directory, the per-document record merge with isolated extractor
    failures, the ledger append after the intermediate write, and the bounded
    retry/fallback of the final write.

    The file system is abstract: the output directory is its listing, the
    ledger is its lines, and every effect the driver has on either is also
    recorded, in order, in a trace of events. The extractors and the outcome
    of every spreadsheet write are parameters. */
module BatchDriver {
  import opened Text
  import opened Records

  /** check_disk_space: fewer than 100 MB free stops the run. */
  const MinFreeBytes: nat := 100 * 1024 * 1024

  /** Primary (openpyxl) attempts at the final write. */
  const MaxRetries: nat := 3

  /** The extractors in the order the driver runs them, with the names its
      error keys use. An error key shows the position in this list, counted
      from 1, not the number of the program module. */
  const Programs: seq<string> := [
    "Legal Details", "Parties", "Judges", "Legal References", "Acts",
    "Citation", "Background", "Crime Info", "Case Outcomes", "Case Details"
  ]

  datatype RunOutcome =
    | NotWritable
    | LowDiskSpace
    | NoPdfFiles
    | AllProcessed
    | Saved(file: string, engine: Engine)
    | PermissionGaveUp
    | FallbackFailed
    | Aborted

  datatype Engine = Openpyxl | Xlsxwriter

  /** How a file-system call ended: it went through, it raised
      PermissionError, or it raised another exception. */
  datatype IoOutcome = Done | PermissionDenied | Failed(message: string)

  /** The calls of the final write: the openpyxl write and the removal of the
      temporary artifact at each attempt, then the xlsxwriter write and the
      removal after it. */
  datatype FinalIo = FinalIo(write: nat -> IoOutcome, removal: nat -> IoOutcome,
                             fallback: IoOutcome, fallbackRemoval: IoOutcome)

  /** What process_pdfs gets from the file system besides the output
      directory and the ledger: the input folder's listing (None when
      os.listdir raises), whether reading the ledger goes through, whether
      each intermediate write and each ledger append goes through, whether
      numbering the final artifact (os.makedirs and the listing of the output
      directory) goes through, and the calls of the final write. A raise the
      driver does not catch on the spot ends the run through its outer
      handler. */
  datatype Io = Io(listing: Option<seq<string>>, ledgerRead: bool, tempOk: nat -> bool,
                   append: nat -> bool, numbering: bool, final: FinalIo)

  /** What one extractor call gave the driver. */
  datatype ExtractorResult = NoneResult | Returned(fields: Record) | Raised(message: string)

  /** The file-system effects of a run, in the order they happen. A
      TempWrite is the attempt to write the first `count` rows of the batch to
      the temporary artifact; `ok` says whether it succeeded. */
  datatype Event =
    | TempWrite(file: string, count: nat, ok: bool)
    | LedgerAppend(name: string)
    | FinalWrite(file: string, engine: Engine, attempt: nat, outcome: IoOutcome)
    | TempRemoval(file: string, outcome: IoOutcome)

  // ---------------------------------------------------------------------
  // Preflight (validate_path, then check_disk_space)

  /** The reason the run stops before any work, if there is one. */
  function Preflight(writable: bool, freeBytes: nat): (r: Option<RunOutcome>)
    ensures r == None <==> writable && freeBytes >= MinFreeBytes
    ensures r == Some(NotWritable) <==> !writable
    ensures r == Some(LowDiskSpace) <==> writable && freeBytes < MinFreeBytes
  {
    if !writable then Some(NotWritable)
    else if freeBytes < MinFreeBytes then Some(LowDiskSpace)
    else None
  }

  // ---------------------------------------------------------------------
  // Batch numbering (get_next_batch_number)

  /** The number `re.match(base + "_batch_(\d+)\.xlsx", name)` captures:
      the name starts with `<base>_batch_`, then digits, then `.xlsx`;
      anything may follow, since re.match anchors only the start. */
  function BatchNumberOf(base: string, name: string): Option<nat> {
    var p := base + "_batch_";
    if !(p <= name) then None
    else
      var j := SkipDigits(name, |p|);
      if j > |p| && ".xlsx" <= name[j..] then Some(DigitsValue(name[|p|..j])) else None
  }

  /** `max(batch_numbers, default=0)` over a directory listing. */
  function LargestBatchNumber(base: string, listing: seq<string>): nat {
    if listing == [] then 0
    else
      var m := LargestBatchNumber(base, listing[..|listing| - 1]);
      match BatchNumberOf(base, listing[|listing| - 1])
      case Some(n) => if n > m then n else m
      case None => m
  }

  function NextBatchNumber(base: string, listing: seq<string>): nat {
    LargestBatchNumber(base, listing) + 1
  }

  /** The next number is above every number in the listing and is one more
      than one of them, unless it is 1. */
  lemma {:induction false} NextBatchNumberIsOneMoreThanLargest(base: string, listing: seq<string>)
    ensures forall name :: name in listing && BatchNumberOf(base, name).Some? ==>
      BatchNumberOf(base, name).value < NextBatchNumber(base, listing)
    ensures NextBatchNumber(base, listing) == 1 ||
      exists name :: name in listing && BatchNumberOf(base, name) == Some(NextBatchNumber(base, listing) - 1)
    ensures (forall name :: name in listing ==> BatchNumberOf(base, name).None?) ==>
      NextBatchNumber(base, listing) == 1
  {
    if listing != [] {
      var p := listing[..|listing| - 1];
      assert listing == p + [listing[|listing| - 1]];
      NextBatchNumberIsOneMoreThanLargest(base, p);
    }
  }

  /** get_next_batch_number: one pass over the directory listing. */
  method GetNextBatchNumber(base: string, listing: seq<string>) returns (n: nat)
    ensures n == NextBatchNumber(base, listing)
    ensures n >= 1
    ensures forall name :: name in listing && BatchNumberOf(base, name).Some? ==>
      BatchNumberOf(base, name).value < n
  {
    var largest := 0;
    for i := 0 to |listing|
      invariant largest == LargestBatchNumber(base, listing[..i])
    {
      assert listing[..i + 1][..i] == listing[..i];
      match BatchNumberOf(base, listing[i]) {
        case Some(m) =>
          if m > largest {
            largest := m;
          }
        case None =>
      }
    }
    assert listing[..|listing|] == listing;
    n := largest + 1;
    NextBatchNumberIsOneMoreThanLargest(base, listing);
  }

  function FinalName(base: string, n: nat): string {
    base + "_batch_" + NatToString(n) + ".xlsx"
  }

  function TempName(base: string, n: nat): string {
    base + "_batch_" + NatToString(n) + "_temp.xlsx"
  }

  /** The final artifact's name carries its number back to the numbering. */
  lemma FinalNameNumbered(base: string, n: nat)
    ensures BatchNumberOf(base, FinalName(base, n)) == Some(n)
  {
    var name := FinalName(base, n);
    var p := base + "_batch_";
    var d := NatToString(n);
    assert name == p + d + ".xlsx";
    assert p <= name;
    var j := SkipDigits(name, |p|);
    assert name[|p|..|p| + |d|] == d;
    assert j == |p| + |d| by {
      assert forall k :: |p| <= k < |p| + |d| ==> IsDigit(name[k]);
      assert |p| + |d| < |name| && name[|p| + |d|] == '.';
      SkipDigitsEnd(name, |p|, |p| + |d|);
    }
    assert name[j..] == ".xlsx";
    DigitsValueOfNatToString(n);
  }

  /** A temporary artifact's name never matches the numbering pattern. */
  lemma TempNameUnnumbered(base: string, n: nat)
    ensures BatchNumberOf(base, TempName(base, n)) == None
  {
    var name := TempName(base, n);
    var p := base + "_batch_";
    var d := NatToString(n);
    assert name == p + d + "_temp.xlsx";
    var j := SkipDigits(name, |p|);
    assert j == |p| + |d| by {
      assert forall k :: |p| <= k < |p| + |d| ==> IsDigit(name[k]);
      assert |p| + |d| < |name| && name[|p| + |d|] == '_';
      SkipDigitsEnd(name, |p|, |p| + |d|);
    }
    assert name[j] == '_';
  }

  /** Writing a temporary artifact does not move the numbering. */
  lemma NextBatchNumberIgnoresTemp(base: string, listing: seq<string>, n: nat)
    ensures NextBatchNumber(base, listing + [TempName(base, n)]) == NextBatchNumber(base, listing)
  {
    var l := listing + [TempName(base, n)];
    assert l[..|l| - 1] == listing;
    TempNameUnnumbered(base, n);
  }

  /** The final artifact never overwrites a batch file already listed. */
  lemma FinalNameIsFresh(base: string, listing: seq<string>)
    ensures FinalName(base, NextBatchNumber(base, listing)) !in listing
  {
    var n := NextBatchNumber(base, listing);
    FinalNameNumbered(base, n);
    NextBatchNumberIsOneMoreThanLargest(base, listing);
  }

  // ---------------------------------------------------------------------
  // Work selection

  /** `f.lower().endswith('.pdf')`. */
  predicate IsPdfName(f: string) {
    |f| >= 4 && Lower(f[|f| - 4..]) == ".pdf"
  }

  /** The first `maxPdfs` PDF names of the input listing. */
  function PdfFiles(input: seq<string>, maxPdfs: int): seq<string> {
    PySlice(Filter(input, IsPdfName), maxPdfs)
  }

  /** The PDF names not already in the ledger. */
  function Unprocessed(pdfs: seq<string>, ledger: seq<string>): seq<string> {
    Filter(pdfs, (f: string) => f !in ledger)
  }

  function SelectBatch(input: seq<string>, ledger: seq<string>, batchSize: int, maxPdfs: int): seq<string> {
    PySlice(Unprocessed(PdfFiles(input, maxPdfs), ledger), batchSize)
  }

  /** Every batch name is a PDF of the listing that the ledger does not hold,
      the batch is a prefix of the remaining work, and it respects the bound. */
  lemma SelectedBatch(input: seq<string>, ledger: seq<string>, batchSize: int, maxPdfs: int)
    ensures var batch := SelectBatch(input, ledger, batchSize, maxPdfs);
      && batch <= Unprocessed(PdfFiles(input, maxPdfs), ledger)
      && (forall f :: f in batch ==> f in input && IsPdfName(f) && f !in ledger)
      && (batchSize >= 0 ==> |batch| <= batchSize)
      && (maxPdfs >= 0 ==> |batch| <= maxPdfs)
  {
    var pdfs := PdfFiles(input, maxPdfs);
    var batch := SelectBatch(input, ledger, batchSize, maxPdfs);
    forall f | f in batch ensures f in pdfs {
      PrefixMember(batch, Unprocessed(pdfs, ledger), f);
    }
    forall f | f in pdfs ensures f in Filter(input, IsPdfName) {
      PrefixMember(pdfs, Filter(input, IsPdfName), f);
    }
  }

  lemma PrefixMember<T>(p: seq<T>, s: seq<T>, x: T)
    requires p <= s && x in p
    ensures x in s
  {
    var i :| 0 <= i < |p| && p[i] == x;
    assert s[i] == x;
  }

  /** Once a batch takes all the remaining work, the next run with the same
      input and the grown ledger finds nothing left to do. */
  lemma {:induction false} SecondRunIsIdle(input: seq<string>, ledger: seq<string>, batchSize: int, maxPdfs: int)
    requires SelectBatch(input, ledger, batchSize, maxPdfs) == Unprocessed(PdfFiles(input, maxPdfs), ledger)
    ensures Unprocessed(PdfFiles(input, maxPdfs), ledger + SelectBatch(input, ledger, batchSize, maxPdfs)) == []
  {
    var pdfs := PdfFiles(input, maxPdfs);
    var ledger' := ledger + SelectBatch(input, ledger, batchSize, maxPdfs);
    forall f | f in pdfs ensures f in ledger' {
      if f !in ledger {
        assert f in Unprocessed(pdfs, ledger);
      }
    }
    NothingLeft(pdfs, ledger');
  }

  lemma {:induction false} NothingLeft(pdfs: seq<string>, ledger: seq<string>)
    requires forall f :: f in pdfs ==> f in ledger
    ensures Unprocessed(pdfs, ledger) == []
  {
    if pdfs != [] {
      assert pdfs[0] in ledger;
      NothingLeft(pdfs[1..], ledger);
    }
  }

  // ---------------------------------------------------------------------
  // The ledger on disk: one name and '\n' per append, read back with
  // str.splitlines

  /** The line boundaries of str.splitlines ("\r\n" counts as one). */
  predicate IsLineBreak(c: char) {
    c == '\n' || c == '\r' || c == '\U{B}' || c == '\U{C}' || c == '\U{1C}' || c == '\U{1D}'
    || c == '\U{1E}' || c == '\U{85}' || c == '\U{2028}' || c == '\U{2029}'
  }

  predicate NoLineBreak(s: string) {
    forall i :: 0 <= i < |s| ==> !IsLineBreak(s[i])
  }

  /** The contents of the ledger file after appending `names` in order to an
      empty or missing file. */
  function LedgerText(names: seq<string>): string {
    if names == [] then "" else names[0] + "\n" + LedgerText(names[1..])
  }

  /** Where the first line of `s` ends. */
  function LineEnd(s: string): (i: nat)
    ensures i <= |s|
  {
    if s == [] || IsLineBreak(s[0]) then 0 else 1 + LineEnd(s[1..])
  }

  /** The first line ends at the first boundary, or at the end of the text. */
  lemma {:induction false} LineEndIsFirstBreak(s: string)
    ensures LineEnd(s) < |s| ==> IsLineBreak(s[LineEnd(s)])
    ensures forall k :: 0 <= k < LineEnd(s) ==> !IsLineBreak(s[k])
  {
    if s != [] && !IsLineBreak(s[0]) {
      LineEndIsFirstBreak(s[1..]);
      forall k | 1 <= k < LineEnd(s) ensures !IsLineBreak(s[k]) {
        assert s[k] == s[1..][k - 1];
      }
    }
  }

  /** str.splitlines: the lines of `s` without their boundaries, and no
      empty last line after a final boundary. */
  function SplitLines(s: string): seq<string>
    decreases |s|
  {
    if s == [] then []
    else
      var i := LineEnd(s);
      if i == |s| then [s]
      else
        var next := if s[i] == '\r' && i + 1 < |s| && s[i + 1] == '\n' then i + 2 else i + 1;
        [s[..i]] + SplitLines(s[next..])
  }

  /** Appending one name adds its line at the end of the file. */
  lemma {:induction false} LedgerTextAppend(names: seq<string>, name: string)
    ensures LedgerText(names + [name]) == LedgerText(names) + name + "\n"
  {
    if names != [] {
      assert (names + [name])[1..] == names[1..] + [name];
      LedgerTextAppend(names[1..], name);
    }
  }

  /** The ledger reads back as the names written, when none holds a line
      boundary. */
  lemma {:induction false} LedgerReadBack(names: seq<string>)
    requires forall j :: 0 <= j < |names| ==> NoLineBreak(names[j])
    ensures SplitLines(LedgerText(names)) == names
  {
    if names != [] {
      var n := names[0];
      var s := LedgerText(names);
      assert s == n + ("\n" + LedgerText(names[1..]));
      LineEndAfter(n, "\n" + LedgerText(names[1..]));
      assert s[..|n|] == n;
      assert s[|n| + 1..] == LedgerText(names[1..]);
      LedgerReadBack(names[1..]);
    }
  }

  /** A name holding a line boundary does not survive the round trip: a
      name `a + "\r" + b` (for instance "a\rb.pdf") reads back as the two
      names `a` and `b`. */
  lemma LineBreakInName(a: string, b: string)
    requires NoLineBreak(a) && NoLineBreak(b) && b != []
    ensures SplitLines(LedgerText([a + "\r" + b])) == [a, b]
  {
    var rest := b + "\n";
    var s := a + ("\r" + rest);
    assert LedgerText([a + "\r" + b]) == s by {
      assert LedgerText([a + "\r" + b]) == a + "\r" + b + "\n" + LedgerText([]);
    }
    LineEndAfter(a, "\r" + rest);
    assert s[|a| + 1] == b[0];
    assert s[..|a|] == a && s[|a| + 1..] == rest;
    SplitLinesStep(s, |a|);
    OneLine(b);
    assert SplitLines(s) == [a] + [b];
  }

  /** A name without boundaries, then '\n', is one line. */
  lemma OneLine(b: string)
    requires NoLineBreak(b)
    ensures SplitLines(b + "\n") == [b]
  {
    var rest := b + "\n";
    LineEndAfter(b, "\n");
    assert rest[..|b|] == b && rest[|b| + 1..] == [];
    SplitLinesStep(rest, |b|);
    assert SplitLines(rest[|b| + 1..]) == [];
  }

  /** A line without boundaries ends where the boundary after it is. */
  lemma LineEndAfter(x: string, y: string)
    requires NoLineBreak(x) && y != [] && IsLineBreak(y[0])
    ensures LineEnd(x + y) == |x|
  {
    forall k | 0 <= k < |x| ensures !IsLineBreak((x + y)[k]) {
      assert (x + y)[k] == x[k];
    }
    LineEndAt(x + y, |x|);
  }

  /** A line ended by a single boundary, then the lines after it. */
  lemma SplitLinesStep(s: string, i: nat)
    requires i < |s| && LineEnd(s) == i && !(s[i] == '\r' && i + 1 < |s| && s[i + 1] == '\n')
    ensures SplitLines(s) == [s[..i]] + SplitLines(s[i + 1..])
  {
  }

  /** The first line of `s` ends at the first boundary. */
  lemma {:induction false} LineEndAt(s: string, i: nat)
    requires i < |s| && IsLineBreak(s[i])
    requires forall k :: 0 <= k < i ==> !IsLineBreak(s[k])
    ensures LineEnd(s) == i
  {
    if i > 0 {
      LineEndAt(s[1..], i - 1);
    }
  }

  /** SecondRunIsIdle with the ledger read back from the file: when no listed
      name holds a line boundary, the next run finds nothing left. */
  lemma SecondRunIsIdleOnDisk(input: seq<string>, ledger: seq<string>, batchSize: int, maxPdfs: int)
    requires forall j :: 0 <= j < |input| ==> NoLineBreak(input[j])
    requires forall j :: 0 <= j < |ledger| ==> NoLineBreak(ledger[j])
    requires SelectBatch(input, ledger, batchSize, maxPdfs) == Unprocessed(PdfFiles(input, maxPdfs), ledger)
    ensures Unprocessed(PdfFiles(input, maxPdfs), SplitLines(LedgerText(ledger + SelectBatch(input, ledger, batchSize, maxPdfs)))) == []
  {
    var batch := SelectBatch(input, ledger, batchSize, maxPdfs);
    SelectedBatch(input, ledger, batchSize, maxPdfs);
    forall j | 0 <= j < |ledger + batch| ensures NoLineBreak((ledger + batch)[j]) {
      if j >= |ledger| {
        assert (ledger + batch)[j] == batch[j - |ledger|];
        assert batch[j - |ledger|] in input;
      }
    }
    LedgerReadBack(ledger + batch);
    SecondRunIsIdle(input, ledger, batchSize, maxPdfs);
  }

  // ---------------------------------------------------------------------
  // The per-document record

  /** `f"Error (Program {i} - {name})"`. */
  function ErrorKey(i: nat, name: string): string {
    "Error (Program " + NatToString(i) + " - " + name + ")"
  }

  /** The error key of the program at index `j` of the list (shown as j + 1). */
  function ProgramErrorKey(j: nat): string
    requires j < |Programs|
  {
    ErrorKey(j + 1, Programs[j])
  }

  /** What `result` becomes once the program at index `j` has run. */
  function MergeStep(rec: Record, j: nat, r: ExtractorResult): Record
    requires j < |Programs|
  {
    match r
    case NoneResult => Put(rec, ProgramErrorKey(j), Str("Empty result"))
    case Returned(fields) =>
      if fields == [] then Put(rec, ProgramErrorKey(j), Str("Empty result"))
      else Update(rec, fields)
    case Raised(message) => Put(rec, ProgramErrorKey(j), Str(message))
  }

  /** The record of `pdf` once the first |results| programs have run. */
  function MergeRecord(pdf: string, results: seq<ExtractorResult>): Record
    requires |results| <= |Programs|
  {
    if results == [] then [("File Name", Str(pdf))]
    else MergeStep(MergeRecord(pdf, results[..|results| - 1]), |results| - 1, results[|results| - 1])
  }

  /** The results of all programs on one document; program j + 1 is called
      for index j. */
  function ResultsFor(pdf: string, extract: (string, nat) -> ExtractorResult): (rs: seq<ExtractorResult>)
    ensures |rs| == |Programs|
    ensures forall j :: 0 <= j < |Programs| ==> rs[j] == extract(pdf, j + 1)
  {
    seq(|Programs|, j requires 0 <= j < |Programs| => extract(pdf, j + 1))
  }

  /** The row the driver builds for one document. */
  function DocRecord(pdf: string, extract: (string, nat) -> ExtractorResult): Record {
    MergeRecord(pdf, ResultsFor(pdf, extract))
  }

  /** The value the result of the program at index `j` writes under key `k`,
      if it writes one. */
  function Writes(j: nat, r: ExtractorResult, k: string): Option<Value>
    requires j < |Programs|
  {
    match r
    case NoneResult => if k == ProgramErrorKey(j) then Some(Str("Empty result")) else None
    case Returned(fields) =>
      if fields == [] then (if k == ProgramErrorKey(j) then Some(Str("Empty result")) else None)
      else Lookup(fields, k)
    case Raised(message) => if k == ProgramErrorKey(j) then Some(Str(message)) else None
  }

  /** The value the last program writing `k` wrote there. */
  function LastWrite(results: seq<ExtractorResult>, k: string): Option<Value>
    requires |results| <= |Programs|
  {
    if results == [] then None
    else
      var w := Writes(|results| - 1, results[|results| - 1], k);
      if w.Some? then w else LastWrite(results[..|results| - 1], k)
  }

  predicate ResultsWellFormed(results: seq<ExtractorResult>) {
    forall j :: 0 <= j < |results| && results[j].Returned? ==> WellFormed(results[j].fields)
  }

  /** One merge step writes what the program's result writes and leaves every
      other key alone. */
  lemma MergeStepLookup(rec: Record, j: nat, r: ExtractorResult, k: string)
    requires j < |Programs|
    requires r.Returned? ==> WellFormed(r.fields)
    ensures Lookup(MergeStep(rec, j, r), k) == if Writes(j, r, k).Some? then Writes(j, r, k) else Lookup(rec, k)
  {
    MergeStepKeys(rec, j, r);
    if r.Returned? && r.fields != [] {
      UpdateFacts(rec, r.fields);
    } else {
      PutFacts(rec, ProgramErrorKey(j), Writes(j, r, ProgramErrorKey(j)).value);
    }
  }

  /** One merge step keeps the keys already there, in order, and adds none
      twice. */
  lemma MergeStepKeys(rec: Record, j: nat, r: ExtractorResult)
    requires j < |Programs|
    ensures Keys(rec) <= Keys(MergeStep(rec, j, r))
    ensures WellFormed(rec) ==> WellFormed(MergeStep(rec, j, r))
    ensures r.Returned? && r.fields != [] ==> MergeStep(rec, j, r) == Update(rec, r.fields)
    ensures !(r.Returned? && r.fields != []) ==>
      MergeStep(rec, j, r) == Put(rec, ProgramErrorKey(j), Writes(j, r, ProgramErrorKey(j)).value)
  {
    match r {
      case Returned(fields) =>
        if fields == [] {
          PutFacts(rec, ProgramErrorKey(j), Str("Empty result"));
        } else {
          UpdateFacts(rec, fields);
        }
      case NoneResult =>
        PutFacts(rec, ProgramErrorKey(j), Str("Empty result"));
      case Raised(message) =>
        PutFacts(rec, ProgramErrorKey(j), Str(message));
    }
  }

  /** Each field of the record holds what the last program writing that field
      wrote; "File Name" holds the document's name unless a program wrote it. */
  lemma {:induction false} MergeRecordLookup(pdf: string, results: seq<ExtractorResult>, k: string)
    requires |results| <= |Programs| && ResultsWellFormed(results)
    ensures Lookup(MergeRecord(pdf, results), k) ==
      if LastWrite(results, k).Some? then LastWrite(results, k)
      else if k == "File Name" then Some(Str(pdf)) else None
  {
    if results == [] {
      assert Keys([("File Name", Str(pdf))]) == ["File Name"];
    } else {
      var p := results[..|results| - 1];
      assert ResultsWellFormed(p) by {
        forall j | 0 <= j < |p| && p[j].Returned? ensures WellFormed(p[j].fields) {
          assert p[j] == results[j];
        }
      }
      MergeRecordLookup(pdf, p, k);
      MergeStepLookup(MergeRecord(pdf, p), |results| - 1, results[|results| - 1], k);
    }
  }

  /** Every record starts with its "File Name" field and has no key twice. */
  lemma {:induction false} MergeRecordShape(pdf: string, results: seq<ExtractorResult>)
    requires |results| <= |Programs|
    ensures var rec := MergeRecord(pdf, results);
      |rec| >= 1 && rec[0].0 == "File Name" && WellFormed(rec)
  {
    if results == [] {
      assert Keys([("File Name", Str(pdf))]) == ["File Name"];
    } else {
      var p := results[..|results| - 1];
      MergeRecordShape(pdf, p);
      var before := MergeRecord(pdf, p);
      MergeStepKeys(before, |results| - 1, results[|results| - 1]);
      assert Keys(before)[0] == "File Name";
      assert Keys(MergeRecord(pdf, results))[0] == "File Name";
    }
  }

  /** A program that raises or returns nothing leaves its error marker, and
      only it: every other field is what the other programs wrote. */
  lemma FailureIsIsolated(pdf: string, results: seq<ExtractorResult>, i: nat)
    requires |results| <= |Programs| && ResultsWellFormed(results)
    requires i < |results|
    requires results[i].Raised? || results[i].NoneResult?
    requires forall j :: i < j < |results| ==> Writes(j, results[j], ProgramErrorKey(i)).None?
    ensures Lookup(MergeRecord(pdf, results), ProgramErrorKey(i)) ==
      Some(Str(if results[i].Raised? then results[i].message else "Empty result"))
    ensures forall k :: k != ProgramErrorKey(i) ==>
      Lookup(MergeRecord(pdf, results), k) == Lookup(MergeRecord(pdf, results[i := NoneResult]), k)
  {
    var key := ProgramErrorKey(i);
    MergeRecordLookup(pdf, results, key);
    LastWriteAt(results, key, i);
    var others := results[i := NoneResult];
    assert ResultsWellFormed(others);
    forall k | k != key
      ensures Lookup(MergeRecord(pdf, results), k) == Lookup(MergeRecord(pdf, others), k)
    {
      MergeRecordLookup(pdf, results, k);
      MergeRecordLookup(pdf, others, k);
      LastWriteSkips(results, others, k, i);
    }
  }

  lemma {:induction false} LastWriteAt(results: seq<ExtractorResult>, k: string, i: nat)
    requires |results| <= |Programs| && i < |results|
    requires Writes(i, results[i], k).Some?
    requires forall j :: i < j < |results| ==> Writes(j, results[j], k).None?
    ensures LastWrite(results, k) == Writes(i, results[i], k)
  {
    if i < |results| - 1 {
      var p := results[..|results| - 1];
      assert forall j :: i < j < |p| ==> p[j] == results[j];
      LastWriteAt(p, k, i);
    }
  }

  lemma {:induction false} LastWriteSkips(a: seq<ExtractorResult>, b: seq<ExtractorResult>, k: string, i: nat)
    requires |a| == |b| <= |Programs| && i < |a|
    requires forall j :: 0 <= j < |a| && j != i ==> a[j] == b[j]
    requires Writes(i, a[i], k).None? && Writes(i, b[i], k).None?
    ensures LastWrite(a, k) == LastWrite(b, k)
  {
    var n := |a|;
    if n - 1 == i {
      assert a[..n - 1] == b[..n - 1];
    } else {
      LastWriteSkips(a[..n - 1], b[..n - 1], k, i);
    }
  }

  /** Equal error keys carry equal program positions. */
  lemma ErrorKeyPosition(i: nat, j: nat, ni: string, nj: string)
    ensures ErrorKey(i, ni) == ErrorKey(j, nj) ==> i == j
  {
    var p := "Error (Program ";
    var a := NatToString(i);
    var b := NatToString(j);
    var x := " - " + ni + ")";
    var y := " - " + nj + ")";
    assert ErrorKey(i, ni) == p + a + x;
    assert ErrorKey(j, nj) == p + b + y;
    if p + a + x == p + b + y {
      NumeralsAgree(p, a, b, x, y);
      NatToStringInjective(i, j);
    }
  }

  /** The inner loop of process_pdfs for one document: every program runs,
      its failure or empty result becomes an error field, its fields are
      merged otherwise. */
  method ProcessDocument(pdf: string, extract: (string, nat) -> ExtractorResult) returns (rec: Record)
    ensures rec == DocRecord(pdf, extract)
  {
    rec := [("File Name", Str(pdf))];
    ghost var results: seq<ExtractorResult> := [];
    for i := 1 to |Programs| + 1
      invariant results == ResultsFor(pdf, extract)[..i - 1]
      invariant rec == MergeRecord(pdf, results)
    {
      var r := extract(pdf, i);
      match r {
        case NoneResult =>
          rec := Put(rec, ErrorKey(i, Programs[i - 1]), Str("Empty result"));
        case Returned(fields) =>
          if fields == [] {
            rec := Put(rec, ErrorKey(i, Programs[i - 1]), Str("Empty result"));
          } else {
            rec := Update(rec, fields);
          }
        case Raised(message) =>
          rec := Put(rec, ErrorKey(i, Programs[i - 1]), Str(message));
      }
      assert (results + [r])[..|results|] == results;
      results := results + [r];
    }
    assert results == ResultsFor(pdf, extract);
  }

  // ---------------------------------------------------------------------
  // The trace of one run

  /** The records of the first `k` documents of the batch. */
  function Rows(batch: seq<string>, k: nat, extract: (string, nat) -> ExtractorResult): (rows: seq<Record>)
    requires k <= |batch|
    ensures |rows| == k
  {
    if k == 0 then [] else Rows(batch, k - 1, extract) + [DocRecord(batch[k - 1], extract)]
  }

  /** One record per document, in the order of the documents. */
  lemma {:induction false} RowsAt(batch: seq<string>, k: nat, extract: (string, nat) -> ExtractorResult, j: nat)
    requires j < k <= |batch|
    ensures Rows(batch, k, extract)[j] == DocRecord(batch[j], extract)
  {
    if j < k - 1 {
      RowsAt(batch, k - 1, extract, j);
    }
  }

  /** The events of the document loop after `k` documents: for each, the
      attempted intermediate write of all rows so far, then its ledger line. */
  function DocEvents(temp: string, batch: seq<string>, tempOk: nat -> bool, k: nat): (es: seq<Event>)
    requires k <= |batch|
    ensures |es| == 2 * k
  {
    if k == 0 then []
    else DocEvents(temp, batch, tempOk, k - 1) + [TempWrite(temp, k, tempOk(k - 1)), LedgerAppend(batch[k - 1])]
  }

  /** Every ledger line comes right after the attempted intermediate write of
      the rows up to and including that document's. */
  ghost predicate LedgerFollowsTempWrite(es: seq<Event>, temp: string, batch: seq<string>) {
    forall e :: 0 <= e < |es| && es[e].LedgerAppend? ==>
      && e >= 1 && es[e - 1].TempWrite? && es[e - 1].file == temp
      && 1 <= es[e - 1].count <= |batch| && batch[es[e - 1].count - 1] == es[e].name
  }

  /** A name reaches the ledger only right after the intermediate write of the
      rows that end with that document's record was attempted (RowsAt gives
      the record at each position). */
  lemma {:induction false} LedgerAppendFollowsTempWrite(temp: string, batch: seq<string>, tempOk: nat -> bool, k: nat)
    requires k <= |batch|
    ensures LedgerFollowsTempWrite(DocEvents(temp, batch, tempOk, k), temp, batch)
  {
    if k > 0 {
      var es := DocEvents(temp, batch, tempOk, k);
      var before := DocEvents(temp, batch, tempOk, k - 1);
      LedgerAppendFollowsTempWrite(temp, batch, tempOk, k - 1);
      assert es == before + [TempWrite(temp, k, tempOk(k - 1)), LedgerAppend(batch[k - 1])];
      forall e | 0 <= e < |es| && es[e].LedgerAppend?
        ensures e >= 1 && es[e - 1].TempWrite? && es[e - 1].file == temp
          && 1 <= es[e - 1].count <= |batch| && batch[es[e - 1].count - 1] == es[e].name
      {
        if e < |before| {
          assert es[e] == before[e];
          assert before[e].LedgerAppend?;
          assert es[e - 1] == before[e - 1];
        } else {
          assert e == |before| + 1;
        }
      }
    }
  }

  /** The output directory after one event: a write that went through adds
      its file, a removal that went through takes its file away. */
  function Step(dir: seq<string>, e: Event): seq<string> {
    match e
    case TempWrite(f, _, ok) => if ok then AddName(dir, f) else dir
    case LedgerAppend(_) => dir
    case FinalWrite(f, _, _, o) => if o == Done then AddName(dir, f) else dir
    case TempRemoval(f, o) => if o == Done then RemoveName(dir, f) else dir
  }

  /** The output directory after the events `es`, in order. */
  function Apply(dir: seq<string>, es: seq<Event>): seq<string>
    decreases |es|
  {
    if es == [] then dir else Step(Apply(dir, es[..|es| - 1]), es[|es| - 1])
  }

  lemma ApplySnoc(dir: seq<string>, es: seq<Event>, e: Event)
    ensures Apply(dir, es + [e]) == Step(Apply(dir, es), e)
  {
    assert (es + [e])[..|es|] == es;
  }

  /** Applying two runs of events one after the other. */
  lemma {:induction false} ApplyAppend(dir: seq<string>, a: seq<Event>, b: seq<Event>)
    ensures Apply(dir, a + b) == Apply(Apply(dir, a), b)
    decreases |b|
  {
    if b == [] {
      assert a + b == a;
    } else {
      var init, last := b[..|b| - 1], b[|b| - 1];
      assert b == init + [last];
      AppendAssoc(a, init, [last]);
      ApplySnoc(dir, a + init, last);
      ApplyAppend(dir, a, init);
      ApplySnoc(Apply(dir, a), init, last);
    }
  }

  /** What the handlers see of one attempt. The removal of the temporary
      artifact runs inside the same `try` as the write, so a removal that
      raises is handled exactly like a write that raises. */
  function Effective(w: IoOutcome, rm: IoOutcome, tempPresent: bool): IoOutcome {
    if w != Done then w else if tempPresent then rm else Done
  }

  /** The events of one attempt: the write, then, when it went through and
      the temporary artifact is there, its removal. */
  function AttemptEvents(file: string, temp: string, tempPresent: bool, engine: Engine, a: nat,
                         w: IoOutcome, rm: IoOutcome): seq<Event>
  {
    [FinalWrite(file, engine, a, w)] + (if w == Done && tempPresent then [TempRemoval(temp, rm)] else [])
  }

  /** The events of openpyxl attempt `a`. */
  function Primary(io: FinalIo, a: nat, file: string, temp: string, tempPresent: bool): seq<Event> {
    AttemptEvents(file, temp, tempPresent, Openpyxl, a, io.write(a), io.removal(a))
  }

  function PrimaryOutcome(io: FinalIo, a: nat, tempPresent: bool): IoOutcome {
    Effective(io.write(a), io.removal(a), tempPresent)
  }

  /** The events of the xlsxwriter attempt, made inside the handler of the
      last openpyxl attempt. */
  function FallbackEvents(io: FinalIo, file: string, temp: string, tempPresent: bool): seq<Event> {
    AttemptEvents(file, temp, tempPresent, Xlsxwriter, MaxRetries - 1, io.fallback, io.fallbackRemoval)
  }

  function FallbackOutcome(io: FinalIo, tempPresent: bool): IoOutcome {
    Effective(io.fallback, io.fallbackRemoval, tempPresent)
  }

  /** The spreadsheet write of process_pdfs from attempt `a` on: the events
      and the outcome. */
  function FinalAttempts(a: nat, file: string, temp: string, tempPresent: bool, io: FinalIo): (seq<Event>, RunOutcome)
    requires a < MaxRetries
    decreases MaxRetries - a
  {
    var head := Primary(io, a, file, temp, tempPresent);
    var e := PrimaryOutcome(io, a, tempPresent);
    if e == Done then (head, Saved(file, Openpyxl))
    else if a < MaxRetries - 1 then
      var rest := FinalAttempts(a + 1, file, temp, tempPresent, io);
      (head + rest.0, rest.1)
    else if e == PermissionDenied then (head, PermissionGaveUp)
    else
      (head + FallbackEvents(io, file, temp, tempPresent),
       if FallbackOutcome(io, tempPresent) == Done then Saved(file, Xlsxwriter) else FallbackFailed)
  }

  /** An attempt that goes through ends the write. */
  lemma FinalAttemptsSaved(a: nat, file: string, temp: string, tempPresent: bool, io: FinalIo)
    requires a < MaxRetries && PrimaryOutcome(io, a, tempPresent) == Done
    ensures FinalAttempts(a, file, temp, tempPresent, io) == (Primary(io, a, file, temp, tempPresent), Saved(file, Openpyxl))
  {
  }

  /** An earlier attempt that raises is followed by the next one. */
  lemma FinalAttemptsGoOn(a: nat, file: string, temp: string, tempPresent: bool, io: FinalIo)
    requires a < MaxRetries - 1 && PrimaryOutcome(io, a, tempPresent) != Done
    ensures var rest := FinalAttempts(a + 1, file, temp, tempPresent, io);
      FinalAttempts(a, file, temp, tempPresent, io) == (Primary(io, a, file, temp, tempPresent) + rest.0, rest.1)
  {
  }

  /** The events so far, then those from an earlier attempt that raises on:
      the same as the events so far with that attempt's, then the rest. */
  lemma FinalAttemptsAfter(done: seq<Event>, a: nat, file: string, temp: string, tempPresent: bool, io: FinalIo)
    requires a < MaxRetries - 1 && PrimaryOutcome(io, a, tempPresent) != Done
    ensures done + FinalAttempts(a, file, temp, tempPresent, io).0
            == (done + Primary(io, a, file, temp, tempPresent)) + FinalAttempts(a + 1, file, temp, tempPresent, io).0
    ensures FinalAttempts(a, file, temp, tempPresent, io).1 == FinalAttempts(a + 1, file, temp, tempPresent, io).1
  {
    FinalAttemptsGoOn(a, file, temp, tempPresent, io);
    AppendAssoc(done, Primary(io, a, file, temp, tempPresent), FinalAttempts(a + 1, file, temp, tempPresent, io).0);
  }

  /** The last attempt that raises gives up or hands over to xlsxwriter. */
  lemma FinalAttemptsLast(file: string, temp: string, tempPresent: bool, io: FinalIo)
    requires PrimaryOutcome(io, MaxRetries - 1, tempPresent) != Done
    ensures var head := Primary(io, MaxRetries - 1, file, temp, tempPresent);
      FinalAttempts(MaxRetries - 1, file, temp, tempPresent, io) ==
        if PrimaryOutcome(io, MaxRetries - 1, tempPresent) == PermissionDenied then (head, PermissionGaveUp)
        else (head + FallbackEvents(io, file, temp, tempPresent),
              if FallbackOutcome(io, tempPresent) == Done then Saved(file, Xlsxwriter) else FallbackFailed)
  {
  }

  predicate IsPrimary(e: Event) {
    e.FinalWrite? && e.engine == Openpyxl
  }

  predicate IsFallback(e: Event) {
    e.FinalWrite? && e.engine == Xlsxwriter
  }

  /** The retry policy written out, with an attempt counting as failed when
      its write or the removal after it raised: the outcome of each way the
      attempts can go, with its events. */
  lemma FinalAttemptsCases(file: string, temp: string, tempPresent: bool, io: FinalIo)
    ensures var r := FinalAttempts(0, file, temp, tempPresent, io);
      var p0 := Primary(io, 0, file, temp, tempPresent);
      var p1 := Primary(io, 1, file, temp, tempPresent);
      var p2 := Primary(io, 2, file, temp, tempPresent);
      var e0 := PrimaryOutcome(io, 0, tempPresent);
      var e1 := PrimaryOutcome(io, 1, tempPresent);
      var e2 := PrimaryOutcome(io, 2, tempPresent);
      var fb := FallbackEvents(io, file, temp, tempPresent);
      && (e0 == Done ==> r == (p0, Saved(file, Openpyxl)))
      && (e0 != Done && e1 == Done ==> r == (p0 + p1, Saved(file, Openpyxl)))
      && (e0 != Done && e1 != Done ==>
            && (e2 == Done ==> r == (p0 + p1 + p2, Saved(file, Openpyxl)))
            && (e2 == PermissionDenied ==> r == (p0 + p1 + p2, PermissionGaveUp))
            && (e2.Failed? ==>
                  r == (p0 + p1 + p2 + fb,
                        if FallbackOutcome(io, tempPresent) == Done then Saved(file, Xlsxwriter) else FallbackFailed)))
  {
    var p0 := Primary(io, 0, file, temp, tempPresent);
    var p1 := Primary(io, 1, file, temp, tempPresent);
    var p2 := Primary(io, 2, file, temp, tempPresent);
    var fb := FallbackEvents(io, file, temp, tempPresent);
    if PrimaryOutcome(io, 0, tempPresent) != Done {
      FinalAttemptsGoOn(0, file, temp, tempPresent, io);
      if PrimaryOutcome(io, 1, tempPresent) == Done {
        FinalAttemptsSaved(1, file, temp, tempPresent, io);
      } else {
        FinalAttemptsGoOn(1, file, temp, tempPresent, io);
        var r2 := FinalAttempts(2, file, temp, tempPresent, io);
        AppendAssoc(p0, p1, r2.0);
        if PrimaryOutcome(io, 2, tempPresent) == Done {
          FinalAttemptsSaved(2, file, temp, tempPresent, io);
        } else {
          FinalAttemptsLast(file, temp, tempPresent, io);
          if PrimaryOutcome(io, 2, tempPresent).Failed? {
            AppendAssoc(p0 + p1, p2, fb);
          }
        }
      }
    }
  }

  /** The events of one attempt hold the write, and a removal only right
      after a write that went through; the removal is the one that counts
      when the write went through. */
  lemma AttemptShape(file: string, temp: string, tempPresent: bool, engine: Engine, a: nat, w: IoOutcome, rm: IoOutcome)
    ensures var b := AttemptEvents(file, temp, tempPresent, engine, a, w, rm);
      && 1 <= |b| <= 2 && b[0] == FinalWrite(file, engine, a, w)
      && (|b| == 2 <==> w == Done && tempPresent)
      && (|b| == 2 ==> b[1] == TempRemoval(temp, rm))
  {
  }

  /** In `es`, the events of the openpyxl attempts from `a` on: each is an
      attempt below three, made only after every earlier one from `a` on
      failed (its write or the removal after it raised), and carries that
      attempt's write outcome; they come in the order of their attempts. */
  predicate PrimaryFrom(es: seq<Event>, a: nat, io: FinalIo, tempPresent: bool) {
    && (forall i :: 0 <= i < |es| && IsPrimary(es[i]) ==>
          && a <= es[i].attempt < MaxRetries && es[i].outcome == io.write(es[i].attempt)
          && forall t :: a <= t < es[i].attempt ==> PrimaryOutcome(io, t, tempPresent) != Done)
    && (forall i, j :: 0 <= i < j < |es| && IsPrimary(es[i]) && IsPrimary(es[j]) ==> es[i].attempt < es[j].attempt)
  }

  /** Attempt `a` followed by events `r` that hold no openpyxl attempt, or,
      when attempt `a` failed, the later attempts. */
  lemma PrimaryJoin(a: nat, file: string, temp: string, tempPresent: bool, io: FinalIo, r: seq<Event>)
    requires a < MaxRetries
    requires (forall i :: 0 <= i < |r| ==> !IsPrimary(r[i]))
             || (PrimaryOutcome(io, a, tempPresent) != Done && PrimaryFrom(r, a + 1, io, tempPresent))
    ensures PrimaryFrom(Primary(io, a, file, temp, tempPresent) + r, a, io, tempPresent)
  {
    var b := Primary(io, a, file, temp, tempPresent);
    AttemptShape(file, temp, tempPresent, Openpyxl, a, io.write(a), io.removal(a));
    var es := b + r;
    forall i | 0 <= i < |es| && IsPrimary(es[i])
      ensures a <= es[i].attempt < MaxRetries && es[i].outcome == io.write(es[i].attempt)
      ensures forall t :: a <= t < es[i].attempt ==> PrimaryOutcome(io, t, tempPresent) != Done
    {
      if i >= |b| {
        assert es[i] == r[i - |b|];
      }
    }
    forall i, j | 0 <= i < j < |es| && IsPrimary(es[i]) && IsPrimary(es[j])
      ensures es[i].attempt < es[j].attempt
    {
      assert es[j] == r[j - |b|];
      if i >= |b| {
        assert es[i] == r[i - |b|];
      }
    }
  }

  /** The openpyxl attempts from attempt `a` on: the first event is attempt
      `a`, and the openpyxl events keep to PrimaryFrom, so there are at most
      three, each made only after every earlier one failed. */
  lemma {:induction false} PrimaryAttempts(a: nat, file: string, temp: string, tempPresent: bool, io: FinalIo)
    requires a < MaxRetries
    decreases MaxRetries - a
    ensures var es := FinalAttempts(a, file, temp, tempPresent, io).0;
      && |es| >= 1 && es[0] == FinalWrite(file, Openpyxl, a, io.write(a))
      && PrimaryFrom(es, a, io, tempPresent)
  {
    var head := Primary(io, a, file, temp, tempPresent);
    var r: seq<Event> := [];
    if PrimaryOutcome(io, a, tempPresent) == Done {
      FinalAttemptsSaved(a, file, temp, tempPresent, io);
      assert head + r == head;
    } else if a < MaxRetries - 1 {
      FinalAttemptsGoOn(a, file, temp, tempPresent, io);
      PrimaryAttempts(a + 1, file, temp, tempPresent, io);
      r := FinalAttempts(a + 1, file, temp, tempPresent, io).0;
    } else {
      FinalAttemptsLast(file, temp, tempPresent, io);
      if PrimaryOutcome(io, a, tempPresent) == PermissionDenied {
        assert head + r == head;
      } else {
        r := FallbackEvents(io, file, temp, tempPresent);
        AttemptShape(file, temp, tempPresent, Xlsxwriter, a, io.fallback, io.fallbackRemoval);
      }
    }
    PrimaryJoin(a, file, temp, tempPresent, io, r);
    AttemptShape(file, temp, tempPresent, Openpyxl, a, io.write(a), io.removal(a));
  }

  /** In `es`, the events from openpyxl attempt `a` on: an xlsxwriter write
      is made at most once, after every openpyxl event, and only when every
      openpyxl attempt from `a` on failed, the third for a reason other than
      permission. */
  predicate FallbackRule(es: seq<Event>, a: nat, file: string, io: FinalIo, tempPresent: bool) {
    forall i :: 0 <= i < |es| && IsFallback(es[i]) ==>
      && es[i] == FinalWrite(file, Xlsxwriter, MaxRetries - 1, io.fallback)
      && (forall t :: a <= t < MaxRetries ==> PrimaryOutcome(io, t, tempPresent) != Done)
      && PrimaryOutcome(io, MaxRetries - 1, tempPresent).Failed?
      && (forall j :: 0 <= j < |es| && IsPrimary(es[j]) ==> j < i)
      && (forall j :: 0 <= j < |es| && IsFallback(es[j]) ==> j == i)
  }

  /** A failed attempt `a` before the later attempts. */
  lemma FallbackJoin(a: nat, file: string, temp: string, tempPresent: bool, io: FinalIo, r: seq<Event>)
    requires a < MaxRetries - 1 && PrimaryOutcome(io, a, tempPresent) != Done
    requires FallbackRule(r, a + 1, file, io, tempPresent)
    ensures FallbackRule(Primary(io, a, file, temp, tempPresent) + r, a, file, io, tempPresent)
  {
    var b := Primary(io, a, file, temp, tempPresent);
    AttemptShape(file, temp, tempPresent, Openpyxl, a, io.write(a), io.removal(a));
    var es := b + r;
    forall i | 0 <= i < |es| && IsFallback(es[i])
      ensures es[i] == FinalWrite(file, Xlsxwriter, MaxRetries - 1, io.fallback)
      ensures forall t :: a <= t < MaxRetries ==> PrimaryOutcome(io, t, tempPresent) != Done
      ensures PrimaryOutcome(io, MaxRetries - 1, tempPresent).Failed?
      ensures forall j :: 0 <= j < |es| && IsPrimary(es[j]) ==> j < i
      ensures forall j :: 0 <= j < |es| && IsFallback(es[j]) ==> j == i
    {
      assert es[i] == r[i - |b|];
      forall j | 0 <= j < |es| && (IsPrimary(es[j]) || IsFallback(es[j]))
        ensures IsPrimary(es[j]) ==> j < i
        ensures IsFallback(es[j]) ==> j == i
      {
        if j >= |b| {
          assert es[j] == r[j - |b|];
        }
      }
    }
  }

  /** The last attempt alone, or followed by the xlsxwriter attempt after a
      failure that is not about permission. */
  lemma FallbackLast(file: string, temp: string, tempPresent: bool, io: FinalIo, r: seq<Event>)
    requires r == [] || (r == FallbackEvents(io, file, temp, tempPresent) && PrimaryOutcome(io, MaxRetries - 1, tempPresent).Failed?)
    ensures FallbackRule(Primary(io, MaxRetries - 1, file, temp, tempPresent) + r, MaxRetries - 1, file, io, tempPresent)
  {
    var b := Primary(io, MaxRetries - 1, file, temp, tempPresent);
    AttemptShape(file, temp, tempPresent, Openpyxl, MaxRetries - 1, io.write(MaxRetries - 1), io.removal(MaxRetries - 1));
    AttemptShape(file, temp, tempPresent, Xlsxwriter, MaxRetries - 1, io.fallback, io.fallbackRemoval);
    var es := b + r;
    forall i | 0 <= i < |es| && IsFallback(es[i])
      ensures i == |b| && es[i] == FinalWrite(file, Xlsxwriter, MaxRetries - 1, io.fallback)
      ensures forall j :: 0 <= j < |es| && (IsPrimary(es[j]) || IsFallback(es[j])) ==> j < |b| || j == |b|
    {
      assert es[i] == r[i - |b|];
    }
  }

  /** The xlsxwriter write is tried at most once: only after every openpyxl
      attempt, and only when every openpyxl attempt from `a` on failed and
      the third for a reason other than permission. */
  lemma {:induction false} FallbackOnlyAfterThirdFailure(a: nat, file: string, temp: string, tempPresent: bool, io: FinalIo)
    requires a < MaxRetries
    decreases MaxRetries - a
    ensures FallbackRule(FinalAttempts(a, file, temp, tempPresent, io).0, a, file, io, tempPresent)
  {
    var head := Primary(io, a, file, temp, tempPresent);
    if PrimaryOutcome(io, a, tempPresent) == Done {
      FinalAttemptsSaved(a, file, temp, tempPresent, io);
      AttemptShape(file, temp, tempPresent, Openpyxl, a, io.write(a), io.removal(a));
    } else if a < MaxRetries - 1 {
      FinalAttemptsGoOn(a, file, temp, tempPresent, io);
      FallbackOnlyAfterThirdFailure(a + 1, file, temp, tempPresent, io);
      FallbackJoin(a, file, temp, tempPresent, io, FinalAttempts(a + 1, file, temp, tempPresent, io).0);
    } else {
      FinalAttemptsLast(file, temp, tempPresent, io);
      if PrimaryOutcome(io, a, tempPresent) == PermissionDenied {
        FallbackLast(file, temp, tempPresent, io, []);
        assert head + [] == head;
      } else {
        FallbackLast(file, temp, tempPresent, io, FallbackEvents(io, file, temp, tempPresent));
      }
    }
  }

  /** When the first two attempts fail and the third fails for a reason
      other than permission, xlsxwriter is tried and decides the run: saved
      only when its write and the removal after it both go through. */
  lemma FallbackAfterThirdFailure(file: string, temp: string, tempPresent: bool, io: FinalIo)
    requires PrimaryOutcome(io, 0, tempPresent) != Done && PrimaryOutcome(io, 1, tempPresent) != Done
    requires PrimaryOutcome(io, 2, tempPresent).Failed?
    ensures var (es, outcome) := FinalAttempts(0, file, temp, tempPresent, io);
      var fb := FallbackEvents(io, file, temp, tempPresent);
      && |es| > |fb| && es[|es| - |fb|..] == fb && fb[0] == FinalWrite(file, Xlsxwriter, MaxRetries - 1, io.fallback)
      && (outcome.Saved? <==> io.fallback == Done && (tempPresent ==> io.fallbackRemoval == Done))
      && outcome == if outcome.Saved? then Saved(file, Xlsxwriter) else FallbackFailed
  {
    var p0 := Primary(io, 0, file, temp, tempPresent);
    var p1 := Primary(io, 1, file, temp, tempPresent);
    var p2 := Primary(io, 2, file, temp, tempPresent);
    var fb := FallbackEvents(io, file, temp, tempPresent);
    FinalAttemptsCases(file, temp, tempPresent, io);
    AttemptShape(file, temp, tempPresent, Xlsxwriter, MaxRetries - 1, io.fallback, io.fallbackRemoval);
    assert (p0 + p1 + p2 + fb)[|p0 + p1 + p2|..] == fb;
  }

  /** In `es`, every removal of the temporary artifact `temp` comes right
      after a write that went through and only when the artifact is there; a
      removal that goes through is the last event and the run ends saved. */
  predicate RemovalsAfterWrites(es: seq<Event>, temp: string, tempPresent: bool, outcome: RunOutcome) {
    forall i :: 0 <= i < |es| && es[i].TempRemoval? ==>
      && tempPresent && i >= 1 && es[i - 1].FinalWrite? && es[i - 1].outcome == Done && es[i].file == temp
      && (es[i].outcome == Done ==> i == |es| - 1 && outcome.Saved?)
  }

  /** One attempt followed by the events `r`, which do not start with a
      removal: removals keep to the rule when the attempt's own removal, if
      it went through, ends the events with the run saved. */
  lemma AttemptRemovals(file: string, temp: string, tempPresent: bool, engine: Engine, a: nat,
                        w: IoOutcome, rm: IoOutcome, r: seq<Event>, outcome: RunOutcome)
    requires r == [] || !r[0].TempRemoval?
    requires RemovalsAfterWrites(r, temp, tempPresent, outcome)
    requires Effective(w, rm, tempPresent) == Done ==> r == [] && outcome.Saved?
    ensures RemovalsAfterWrites(AttemptEvents(file, temp, tempPresent, engine, a, w, rm) + r, temp, tempPresent, outcome)
  {
    var b := AttemptEvents(file, temp, tempPresent, engine, a, w, rm);
    AttemptShape(file, temp, tempPresent, engine, a, w, rm);
    var es := b + r;
    forall i | 0 <= i < |es| && es[i].TempRemoval?
      ensures tempPresent && i >= 1 && es[i - 1].FinalWrite? && es[i - 1].outcome == Done && es[i].file == temp
      ensures es[i].outcome == Done ==> i == |es| - 1 && outcome.Saved?
    {
      if i >= |b| {
        assert es[i] == r[i - |b|];
        assert es[i - 1] == r[i - 1 - |b|];
      }
    }
  }

  /** The temporary artifact is removed only right after a write that went
      through and only when it is there; a removal that goes through ends the
      write, saved. */
  lemma {:induction false} TempRemovedOnlyAfterSuccess(a: nat, file: string, temp: string, tempPresent: bool, io: FinalIo)
    requires a < MaxRetries
    decreases MaxRetries - a
    ensures var (es, outcome) := FinalAttempts(a, file, temp, tempPresent, io);
      RemovalsAfterWrites(es, temp, tempPresent, outcome)
  {
    var w, rm := io.write(a), io.removal(a);
    if PrimaryOutcome(io, a, tempPresent) == Done {
      FinalAttemptsSaved(a, file, temp, tempPresent, io);
      AttemptRemovals(file, temp, tempPresent, Openpyxl, a, w, rm, [], Saved(file, Openpyxl));
      assert Primary(io, a, file, temp, tempPresent) + [] == Primary(io, a, file, temp, tempPresent);
    } else if a < MaxRetries - 1 {
      FinalAttemptsGoOn(a, file, temp, tempPresent, io);
      var rest := FinalAttempts(a + 1, file, temp, tempPresent, io);
      TempRemovedOnlyAfterSuccess(a + 1, file, temp, tempPresent, io);
      PrimaryAttempts(a + 1, file, temp, tempPresent, io);
      AttemptRemovals(file, temp, tempPresent, Openpyxl, a, w, rm, rest.0, rest.1);
    } else {
      FinalAttemptsLast(file, temp, tempPresent, io);
      if PrimaryOutcome(io, a, tempPresent) == PermissionDenied {
        AttemptRemovals(file, temp, tempPresent, Openpyxl, a, w, rm, [], PermissionGaveUp);
        assert Primary(io, a, file, temp, tempPresent) + [] == Primary(io, a, file, temp, tempPresent);
      } else {
        var fb := FallbackEvents(io, file, temp, tempPresent);
        var outcome := if FallbackOutcome(io, tempPresent) == Done then Saved(file, Xlsxwriter) else FallbackFailed;
        AttemptRemovals(file, temp, tempPresent, Xlsxwriter, a, io.fallback, io.fallbackRemoval, [], outcome);
        assert fb + [] == fb;
        AttemptShape(file, temp, tempPresent, Xlsxwriter, a, io.fallback, io.fallbackRemoval);
        AttemptRemovals(file, temp, tempPresent, Openpyxl, a, w, rm, fb, outcome);
      }
    }
  }

  /** A permission failure on the last openpyxl attempt, its write's or its
      removal's, gives up without trying xlsxwriter and without removing the
      temporary artifact. */
  lemma PermissionOnLastAttemptGivesUp(file: string, temp: string, tempPresent: bool, io: FinalIo)
    requires PrimaryOutcome(io, 0, tempPresent) != Done && PrimaryOutcome(io, 1, tempPresent) != Done
    requires PrimaryOutcome(io, 2, tempPresent) == PermissionDenied
    ensures var (es, outcome) := FinalAttempts(0, file, temp, tempPresent, io);
      && outcome == PermissionGaveUp
      && forall i :: 0 <= i < |es| ==> !IsFallback(es[i]) && !(es[i].TempRemoval? && es[i].outcome == Done)
  {
    FinalAttemptsCases(file, temp, tempPresent, io);
    FallbackOnlyAfterThirdFailure(0, file, temp, tempPresent, io);
    TempRemovedOnlyAfterSuccess(0, file, temp, tempPresent, io);
  }

  /** Attempt `i` of `es` went through: its write did, and so did the
      removal after it when the temporary artifact is there. */
  predicate CompletesAt(es: seq<Event>, i: int, temp: string, tempPresent: bool) {
    && 0 <= i < |es| && es[i].FinalWrite? && es[i].outcome == Done
    && (tempPresent ==> i + 1 < |es| && es[i + 1] == TempRemoval(temp, Done))
  }

  /** Where a completed attempt sits when it is the last one. */
  function LastAttemptAt(es: seq<Event>, tempPresent: bool): int {
    |es| - if tempPresent then 2 else 1
  }

  /** One attempt followed by the events `r`, which do not start with a
      removal: it completes exactly when the handlers see it go through. */
  lemma AttemptCompletes(file: string, temp: string, tempPresent: bool, engine: Engine, a: nat,
                         w: IoOutcome, rm: IoOutcome, r: seq<Event>)
    requires r == [] || !r[0].TempRemoval?
    ensures var b := AttemptEvents(file, temp, tempPresent, engine, a, w, rm);
      && (CompletesAt(b + r, 0, temp, tempPresent) <==> Effective(w, rm, tempPresent) == Done)
      && (forall i :: 1 <= i < |b| ==> !CompletesAt(b + r, i, temp, tempPresent))
      && (forall i :: 0 <= i < |r| ==> (CompletesAt(b + r, |b| + i, temp, tempPresent) <==> CompletesAt(r, i, temp, tempPresent)))
  {
    var b := AttemptEvents(file, temp, tempPresent, engine, a, w, rm);
    AttemptShape(file, temp, tempPresent, engine, a, w, rm);
    forall i | 0 <= i < |r|
      ensures CompletesAt(b + r, |b| + i, temp, tempPresent) <==> CompletesAt(r, i, temp, tempPresent)
    {
      assert (b + r)[|b| + i] == r[i];
      if i + 1 < |r| {
        assert (b + r)[|b| + i + 1] == r[i + 1];
      }
    }
  }

  /** In `es`, ending with `outcome`: the run is saved exactly when some
      attempt went through, its write and, when the temporary artifact is
      there, the removal after it; that attempt is the last one, and the
      artifact is the batch file. */
  predicate SavedRule(es: seq<Event>, outcome: RunOutcome, file: string, temp: string, tempPresent: bool) {
    && (outcome.Saved? ==> outcome.file == file && CompletesAt(es, LastAttemptAt(es, tempPresent), temp, tempPresent))
    && (forall i :: 0 <= i < |es| && CompletesAt(es, i, temp, tempPresent) ==> outcome.Saved? && i == LastAttemptAt(es, tempPresent))
  }

  /** An attempt alone decides the rule by what the handlers see of it. */
  lemma SavedAlone(file: string, temp: string, tempPresent: bool, engine: Engine, a: nat,
                   w: IoOutcome, rm: IoOutcome, outcome: RunOutcome)
    requires outcome.Saved? <==> Effective(w, rm, tempPresent) == Done
    requires outcome.Saved? ==> outcome.file == file
    ensures SavedRule(AttemptEvents(file, temp, tempPresent, engine, a, w, rm), outcome, file, temp, tempPresent)
  {
    var b := AttemptEvents(file, temp, tempPresent, engine, a, w, rm);
    AttemptCompletes(file, temp, tempPresent, engine, a, w, rm, []);
    assert b + [] == b;
  }

  /** A failed attempt before events that keep the rule. */
  lemma SavedJoin(file: string, temp: string, tempPresent: bool, engine: Engine, a: nat,
                  w: IoOutcome, rm: IoOutcome, r: seq<Event>, outcome: RunOutcome)
    requires Effective(w, rm, tempPresent) != Done
    requires r != [] && !r[0].TempRemoval?
    requires SavedRule(r, outcome, file, temp, tempPresent)
    ensures SavedRule(AttemptEvents(file, temp, tempPresent, engine, a, w, rm) + r, outcome, file, temp, tempPresent)
  {
    var b := AttemptEvents(file, temp, tempPresent, engine, a, w, rm);
    AttemptCompletes(file, temp, tempPresent, engine, a, w, rm, r);
    var es := b + r;
    assert LastAttemptAt(es, tempPresent) == |b| + LastAttemptAt(r, tempPresent);
    forall i | CompletesAt(es, i, temp, tempPresent)
      ensures outcome.Saved? && i == LastAttemptAt(es, tempPresent)
    {
      assert i >= |b|;
      assert CompletesAt(r, i - |b|, temp, tempPresent);
    }
  }

  /** The run is saved exactly when some attempt went through, its write and,
      when the temporary artifact is there, the removal after it: a write that
      went through is not enough. That attempt is the last one, and the
      artifact is the batch file. */
  lemma {:induction false} SavedIffSomeAttemptCompleted(a: nat, file: string, temp: string, tempPresent: bool, io: FinalIo)
    requires a < MaxRetries
    decreases MaxRetries - a
    ensures var (es, outcome) := FinalAttempts(a, file, temp, tempPresent, io);
      SavedRule(es, outcome, file, temp, tempPresent)
  {
    var w, rm := io.write(a), io.removal(a);
    if PrimaryOutcome(io, a, tempPresent) == Done {
      FinalAttemptsSaved(a, file, temp, tempPresent, io);
      SavedAlone(file, temp, tempPresent, Openpyxl, a, w, rm, Saved(file, Openpyxl));
    } else if a < MaxRetries - 1 {
      FinalAttemptsGoOn(a, file, temp, tempPresent, io);
      var rest := FinalAttempts(a + 1, file, temp, tempPresent, io);
      SavedIffSomeAttemptCompleted(a + 1, file, temp, tempPresent, io);
      PrimaryAttempts(a + 1, file, temp, tempPresent, io);
      SavedJoin(file, temp, tempPresent, Openpyxl, a, w, rm, rest.0, rest.1);
    } else {
      FinalAttemptsLast(file, temp, tempPresent, io);
      if PrimaryOutcome(io, a, tempPresent) == PermissionDenied {
        SavedAlone(file, temp, tempPresent, Openpyxl, a, w, rm, PermissionGaveUp);
      } else {
        var fb := FallbackEvents(io, file, temp, tempPresent);
        var outcome := if FallbackOutcome(io, tempPresent) == Done then Saved(file, Xlsxwriter) else FallbackFailed;
        SavedAlone(file, temp, tempPresent, Xlsxwriter, a, io.fallback, io.fallbackRemoval, outcome);
        AttemptShape(file, temp, tempPresent, Xlsxwriter, a, io.fallback, io.fallbackRemoval);
        SavedJoin(file, temp, tempPresent, Openpyxl, a, w, rm, fb, outcome);
      }
    }
  }

  /** The directory after an attempt whose write went through and whose
      removal raised: the batch file is there and the temporary artifact
      stays. */
  lemma ApplyWrittenNotRemoved(dir: seq<string>, file: string, temp: string, engine: Engine, a: nat, rm: IoOutcome)
    requires rm != Done
    ensures Apply(dir, AttemptEvents(file, temp, true, engine, a, Done, rm)) == AddName(dir, file)
  {
    var es := AttemptEvents(file, temp, true, engine, a, Done, rm);
    assert es == [FinalWrite(file, engine, a, Done)] + [TempRemoval(temp, rm)];
    ApplySnoc(dir, [], FinalWrite(file, engine, a, Done));
    ApplySnoc(dir, [FinalWrite(file, engine, a, Done)], TempRemoval(temp, rm));
  }

  /** A write can go through and the run still end unsaved: when every
      openpyxl write goes through but the temporary artifact is held open, so
      that every removal raises a permission error, the run gives up with the
      batch file written and the temporary artifact still there. */
  lemma WrittenYetUnsaved(dir: seq<string>, file: string, temp: string, io: FinalIo)
    requires file != temp && temp in dir
    requires forall t :: 0 <= t < MaxRetries ==> io.write(t) == Done && io.removal(t) == PermissionDenied
    ensures var (es, outcome) := FinalAttempts(0, file, temp, true, io);
      && outcome == PermissionGaveUp
      && file in Apply(dir, es) && temp in Apply(dir, es)
  {
    var p0 := Primary(io, 0, file, temp, true);
    var p1 := Primary(io, 1, file, temp, true);
    var p2 := Primary(io, 2, file, temp, true);
    assert io.write(0) == Done && io.removal(0) == PermissionDenied;
    assert io.write(1) == Done && io.removal(1) == PermissionDenied;
    assert io.write(2) == Done && io.removal(2) == PermissionDenied;
    FinalAttemptsCases(file, temp, true, io);
    var d1 := AddName(dir, file);
    ApplyWrittenNotRemoved(dir, file, temp, Openpyxl, 0, PermissionDenied);
    ApplyWrittenNotRemoved(d1, file, temp, Openpyxl, 1, PermissionDenied);
    ApplyWrittenNotRemoved(d1, file, temp, Openpyxl, 2, PermissionDenied);
    ApplyAppend(dir, p0, p1);
    ApplyAppend(dir, p0 + p1, p2);
    assert AddName(d1, file) == d1;
  }

  /** Some intermediate write among the first `k` succeeded. */
  predicate AnyTempOk(tempOk: nat -> bool, k: nat) {
    k > 0 && (AnyTempOk(tempOk, k - 1) || tempOk(k - 1))
  }

  /** The directory listing with `name` added, as a write creates it. */
  function AddName(dir: seq<string>, name: string): seq<string> {
    if name in dir then dir else dir + [name]
  }

  /** The directory listing with `name` removed (os.remove). */
  function RemoveName(dir: seq<string>, name: string): seq<string> {
    Filter(dir, (f: string) => f != name)
  }

  /** The number of documents whose ledger line was written before the first
      append that raised; the run ends there, through the outer handler. */
  function Completed(appendOk: nat -> bool, n: nat): (k: nat)
    ensures k <= n
    ensures forall j :: 0 <= j < k ==> appendOk(j)
    ensures k < n ==> !appendOk(k)
  {
    if n == 0 then 0
    else
      var c := Completed(appendOk, n - 1);
      if c < n - 1 || !appendOk(n - 1) then c else n
  }

  /** The documents the loop started: those with a ledger line, and the one
      whose append raised, if any. */
  function Started(appendOk: nat -> bool, n: nat): nat {
    var k := Completed(appendOk, n);
    if k < n then k + 1 else k
  }

  /** The trace of the document loop over `batch`: `DocEvents` of the
      documents with a ledger line, then the intermediate write of the
      document whose append raised. */
  function BatchEvents(temp: string, batch: seq<string>, tempOk: nat -> bool, appendOk: nat -> bool): seq<Event> {
    var k := Completed(appendOk, |batch|);
    DocEvents(temp, batch, tempOk, k) + (if k < |batch| then [TempWrite(temp, k + 1, tempOk(k))] else [])
  }

  /** The output directory after the document loop over `batch`. */
  function BatchDir(dir: seq<string>, temp: string, batch: seq<string>, tempOk: nat -> bool, appendOk: nat -> bool): seq<string> {
    if AnyTempOk(tempOk, Started(appendOk, |batch|)) then AddName(dir, temp) else dir
  }

  /** The state process_pdfs works on: the output directory's listing (the
      ledger file aside), the ledger's lines, and the trace of its effects. */
  class Pipeline {
    var outputDir: seq<string>
    var ledger: seq<string>
    var trace: seq<Event>

    constructor (outputDir: seq<string>, ledger: seq<string>)
      ensures this.outputDir == outputDir && this.ledger == ledger && trace == []
    {
      this.outputDir := outputDir;
      this.ledger := ledger;
      trace := [];
    }

    /** The intermediate write after a document: all rows so far to the
        temporary artifact of the current batch number. */
    method SaveIntermediate(base: string, rows: seq<Record>, ok: bool)
      modifies this
      ensures var temp := TempName(base, NextBatchNumber(base, old(outputDir)));
        && trace == old(trace) + [TempWrite(temp, |rows|, ok)]
        && outputDir == (if ok then AddName(old(outputDir), temp) else old(outputDir))
        && ledger == old(ledger)
    {
      var n := GetNextBatchNumber(base, outputDir);
      var temp := TempName(base, n);
      trace := trace + [TempWrite(temp, |rows|, ok)];
      if ok {
        outputDir := AddName(outputDir, temp);
      }
    }

    /** One line appended to the ledger file; `ok` says whether the append
        goes through. When it raises, nothing is appended. */
    method AppendLedger(name: string, ok: bool)
      modifies this
      ensures ledger == old(ledger) + (if ok then [name] else [])
      ensures trace == old(trace) + (if ok then [LedgerAppend(name)] else [])
      ensures outputDir == old(outputDir)
    {
      if ok {
        ledger := ledger + [name];
        trace := trace + [LedgerAppend(name)];
      }
    }

    /** One attempt at the final write: the write with `engine` and, when it
        goes through and the temporary artifact is there, the removal of that
        artifact; `e` is what the handlers see. */
    method Attempt(file: string, temp: string, engine: Engine, a: nat, w: IoOutcome, rm: IoOutcome)
      returns (e: IoOutcome)
      requires file != temp
      modifies this
      ensures var es := AttemptEvents(file, temp, temp in old(outputDir), engine, a, w, rm);
        && e == Effective(w, rm, temp in old(outputDir))
        && trace == old(trace) + es
        && outputDir == Apply(old(outputDir), es)
        && ledger == old(ledger)
      ensures e != Done ==> (temp in outputDir <==> temp in old(outputDir))
    {
      var present := temp in outputDir;
      ApplyAttempt(outputDir, file, temp, engine, a, w, rm);
      AddNameKeeps(outputDir, file, temp);
      var write := FinalWrite(file, engine, a, w);
      if w == Done && present {
        trace := trace + ([write] + [TempRemoval(temp, rm)]);
        outputDir := AddName(outputDir, file);
        if rm == Done {
          outputDir := RemoveName(outputDir, temp);
        }
        e := rm;
      } else {
        trace := trace + ([write] + []);
        if w == Done {
          outputDir := AddName(outputDir, file);
        }
        e := w;
      }
    }

    /** The final write: up to three openpyxl attempts, then, after a third
        failure that is not about permission, one xlsxwriter attempt. */
    method SaveFinal(file: string, temp: string, io: FinalIo) returns (outcome: RunOutcome)
      requires file != temp
      modifies this
      ensures outcome == FinalAttempts(0, file, temp, temp in old(outputDir), io).1
      ensures trace == old(trace) + FinalAttempts(0, file, temp, temp in old(outputDir), io).0
      ensures outputDir == Apply(old(outputDir), FinalAttempts(0, file, temp, temp in old(outputDir), io).0)
      ensures ledger == old(ledger)
    {
      ghost var present := temp in outputDir;
      var attempt := 0;
      ghost var done: seq<Event> := [];
      while true
        invariant 0 <= attempt < MaxRetries
        invariant ledger == old(ledger) && (temp in outputDir) == present
        invariant trace == old(trace) + done && outputDir == Apply(old(outputDir), done)
        invariant FinalAttempts(0, file, temp, present, io).0 == done + FinalAttempts(attempt, file, temp, present, io).0
        invariant FinalAttempts(0, file, temp, present, io).1 == FinalAttempts(attempt, file, temp, present, io).1
        decreases MaxRetries - attempt
      {
        var result := Round(file, temp, attempt, io);
        if result.Some? {
          Extended(old(trace), done, FinalAttempts(attempt, file, temp, present, io).0, old(outputDir));
          return result.value;
        }
        ghost var head := Primary(io, attempt, file, temp, present);
        Extended(old(trace), done, head, old(outputDir));
        FinalAttemptsAfter(done, attempt, file, temp, present, io);
        done := done + head;
        attempt := attempt + 1;
      }
    }

    /** One pass of the retry loop: openpyxl attempt `a`, and after the third
        failure that is not about permission the xlsxwriter attempt. `None`
        means the loop goes on to the next attempt. */
    method Round(file: string, temp: string, a: nat, io: FinalIo) returns (result: Option<RunOutcome>)
      requires file != temp && a < MaxRetries
      modifies this
      ensures ledger == old(ledger)
      ensures result.Some? ==>
        && result.value == FinalAttempts(a, file, temp, temp in old(outputDir), io).1
        && trace == old(trace) + FinalAttempts(a, file, temp, temp in old(outputDir), io).0
        && outputDir == Apply(old(outputDir), FinalAttempts(a, file, temp, temp in old(outputDir), io).0)
      ensures result.None? ==>
        && a < MaxRetries - 1 && PrimaryOutcome(io, a, temp in old(outputDir)) != Done
        && trace == old(trace) + Primary(io, a, file, temp, temp in old(outputDir))
        && outputDir == Apply(old(outputDir), Primary(io, a, file, temp, temp in old(outputDir)))
        && (temp in outputDir <==> temp in old(outputDir))
    {
      ghost var present := temp in outputDir;
      var e := Attempt(file, temp, Openpyxl, a, io.write(a), io.removal(a));
      if e == Done {
        FinalAttemptsSaved(a, file, temp, present, io);
        return Some(Saved(file, Openpyxl));
      }
      if a < MaxRetries - 1 {
        return None;
      }
      FinalAttemptsLast(file, temp, present, io);
      if e == PermissionDenied {
        return Some(PermissionGaveUp);
      }
      ghost var head := Primary(io, a, file, temp, present);
      var outcome := Fallback(file, temp, io);
      Extended(old(trace), head, FallbackEvents(io, file, temp, present), old(outputDir));
      return Some(outcome);
    }

    /** The xlsxwriter attempt after the third openpyxl failure. */
    method Fallback(file: string, temp: string, io: FinalIo) returns (outcome: RunOutcome)
      requires file != temp
      modifies this
      ensures outcome == if FallbackOutcome(io, temp in old(outputDir)) == Done then Saved(file, Xlsxwriter) else FallbackFailed
      ensures trace == old(trace) + FallbackEvents(io, file, temp, temp in old(outputDir))
      ensures outputDir == Apply(old(outputDir), FallbackEvents(io, file, temp, temp in old(outputDir)))
      ensures ledger == old(ledger)
    {
      var e := Attempt(file, temp, Xlsxwriter, MaxRetries - 1, io.fallback, io.fallbackRemoval);
      outcome := if e == Done then Saved(file, Xlsxwriter) else FallbackFailed;
    }

    /** One pass of the document loop of process_pdfs: the document is
        processed, its record appended to the rows, all rows written to the
        temporary artifact, and then its name appended to the ledger, which
        may raise. */
    method ProcessOne(base: string, pdf: string, rows: seq<Record>,
                      extract: (string, nat) -> ExtractorResult, tempOk: bool, appendOk: bool)
      returns (rows': seq<Record>)
      modifies this
      ensures var temp := TempName(base, NextBatchNumber(base, old(outputDir)));
        && rows' == rows + [DocRecord(pdf, extract)]
        && ledger == old(ledger) + (if appendOk then [pdf] else [])
        && trace == old(trace) + [TempWrite(temp, |rows'|, tempOk)] + (if appendOk then [LedgerAppend(pdf)] else [])
        && outputDir == (if tempOk then AddName(old(outputDir), temp) else old(outputDir))
      ensures NextBatchNumber(base, outputDir) == NextBatchNumber(base, old(outputDir))
    {
      var rec := ProcessDocument(pdf, extract);
      rows' := rows + [rec];
      SaveIntermediate(base, rows', tempOk);
      AppendLedger(pdf, appendOk);
      NextBatchNumberIgnoresTemp(base, old(outputDir), NextBatchNumber(base, old(outputDir)));
    }

    /** The document loop of process_pdfs over the whole batch; it stops at
        the first ledger append that raises (`aborted`). */
    method ProcessBatch(base: string, batch: seq<string>, extract: (string, nat) -> ExtractorResult,
                        tempOk: nat -> bool, appendOk: nat -> bool)
      returns (rows: seq<Record>, aborted: bool)
      modifies this
      ensures aborted == (Completed(appendOk, |batch|) < |batch|)
      ensures rows == Rows(batch, Started(appendOk, |batch|), extract)
      ensures ledger == old(ledger) + batch[..Completed(appendOk, |batch|)]
      ensures trace == old(trace) + BatchEvents(TempName(base, NextBatchNumber(base, old(outputDir))), batch, tempOk, appendOk)
      ensures outputDir == BatchDir(old(outputDir), TempName(base, NextBatchNumber(base, old(outputDir))), batch, tempOk, appendOk)
      ensures NextBatchNumber(base, outputDir) == NextBatchNumber(base, old(outputDir))
    {
      ghost var n0 := NextBatchNumber(base, outputDir);
      ghost var temp := TempName(base, n0);
      ghost var dir0 := outputDir;
      rows := [];
      for k := 0 to |batch|
        invariant rows == Rows(batch, k, extract)
        invariant Completed(appendOk, k) == k
        invariant ledger == old(ledger) + batch[..k]
        invariant trace == old(trace) + DocEvents(temp, batch, tempOk, k)
        invariant outputDir == if AnyTempOk(tempOk, k) then AddName(dir0, temp) else dir0
        invariant NextBatchNumber(base, outputDir) == n0
      {
        ghost var dirBefore := outputDir;
        rows := ProcessOne(base, batch[k], rows, extract, tempOk(k), appendOk(k));
        DirStep(dir0, temp, tempOk, k, dirBefore, outputDir);
        if !appendOk(k) {
          CompletedStop(appendOk, |batch|, k);
          BatchStopped(dir0, temp, batch, tempOk, appendOk, k);
          AppendAssoc(old(trace), DocEvents(temp, batch, tempOk, k), [TempWrite(temp, k + 1, tempOk(k))]);
          aborted := true;
          return;
        }
        DocEventsStep(old(trace), temp, batch, tempOk, k);
        LedgerStep(old(ledger), batch, k);
      }
      aborted := false;
      BatchStopped(dir0, temp, batch, tempOk, appendOk, |batch|);
      assert batch[..|batch|] == batch;
    }

    /** process_pdfs. Every early stop, and every raise the outer handler
        catches, ends the run without a final write. */
    method Run(base: string, batchSize: int, maxPdfs: int, writable: bool, freeBytes: nat,
               extract: (string, nat) -> ExtractorResult, io: Io)
      returns (outcome: RunOutcome, rows: seq<Record>)
      modifies this
      ensures Preflight(writable, freeBytes).Some? ==>
        outcome == Preflight(writable, freeBytes).value && rows == []
        && outputDir == old(outputDir) && ledger == old(ledger) && trace == old(trace)
      ensures Preflight(writable, freeBytes).None? && io.listing.None? ==>
        outcome == Aborted && rows == []
        && outputDir == old(outputDir) && ledger == old(ledger) && trace == old(trace)
      ensures Preflight(writable, freeBytes).None? && io.listing.Some? && PdfFiles(io.listing.value, maxPdfs) == [] ==>
        outcome == NoPdfFiles && rows == []
        && outputDir == old(outputDir) && ledger == old(ledger) && trace == old(trace)
      ensures Preflight(writable, freeBytes).None? && io.listing.Some? && PdfFiles(io.listing.value, maxPdfs) != []
              && !io.ledgerRead ==>
        outcome == Aborted && rows == []
        && outputDir == old(outputDir) && ledger == old(ledger) && trace == old(trace)
      ensures Preflight(writable, freeBytes).None? && io.listing.Some? && PdfFiles(io.listing.value, maxPdfs) != []
              && io.ledgerRead && Unprocessed(PdfFiles(io.listing.value, maxPdfs), old(ledger)) == [] ==>
        outcome == AllProcessed && rows == []
        && outputDir == old(outputDir) && ledger == old(ledger) && trace == old(trace)
      ensures Preflight(writable, freeBytes).None? && io.listing.Some? && io.ledgerRead
              && Unprocessed(PdfFiles(io.listing.value, maxPdfs), old(ledger)) != [] ==>
        var batch := SelectBatch(io.listing.value, old(ledger), batchSize, maxPdfs);
        var n := NextBatchNumber(base, old(outputDir));
        var temp := TempName(base, n);
        var k := Completed(io.append, |batch|);
        var dir := BatchDir(old(outputDir), temp, batch, io.tempOk, io.append);
        && ledger == old(ledger) + batch[..k]
        && (k < |batch| || !io.numbering ==>
              outcome == Aborted && rows == []
              && trace == old(trace) + BatchEvents(temp, batch, io.tempOk, io.append) && outputDir == dir)
        && (k == |batch| && io.numbering ==>
              var final := FinalAttempts(0, FinalName(base, n), temp, temp in dir, io.final);
              && rows == Rows(batch, |batch|, extract)
              && trace == old(trace) + BatchEvents(temp, batch, io.tempOk, io.append) + final.0
              && outputDir == Apply(dir, final.0)
              && outcome == final.1)
    {
      if !writable {
        return NotWritable, [];
      }
      if freeBytes < MinFreeBytes {
        return LowDiskSpace, [];
      }
      if io.listing.None? {
        return Aborted, [];
      }
      var pdfs := PdfFiles(io.listing.value, maxPdfs);
      if pdfs == [] {
        return NoPdfFiles, [];
      }
      if !io.ledgerRead {
        return Aborted, [];
      }
      var remaining := Unprocessed(pdfs, ledger);
      if remaining == [] {
        return AllProcessed, [];
      }
      var batch := PySlice(remaining, batchSize);
      outcome, rows := RunBatch(base, batch, extract, io);
    }

    /** The part of process_pdfs after the batch is chosen: the document
        loop, the batch number and the final write. */
    method RunBatch(base: string, batch: seq<string>, extract: (string, nat) -> ExtractorResult, io: Io)
      returns (outcome: RunOutcome, rows: seq<Record>)
      modifies this
      ensures ledger == old(ledger) + batch[..Completed(io.append, |batch|)]
      ensures var n := NextBatchNumber(base, old(outputDir));
        var temp := TempName(base, n);
        var dir := BatchDir(old(outputDir), temp, batch, io.tempOk, io.append);
        Completed(io.append, |batch|) < |batch| || !io.numbering ==>
          && outcome == Aborted && rows == []
          && trace == old(trace) + BatchEvents(temp, batch, io.tempOk, io.append)
          && outputDir == dir
      ensures var n := NextBatchNumber(base, old(outputDir));
        var temp := TempName(base, n);
        var dir := BatchDir(old(outputDir), temp, batch, io.tempOk, io.append);
        Completed(io.append, |batch|) == |batch| && io.numbering ==>
          var final := FinalAttempts(0, FinalName(base, n), temp, temp in dir, io.final);
          && rows == Rows(batch, |batch|, extract)
          && trace == old(trace) + BatchEvents(temp, batch, io.tempOk, io.append) + final.0
          && outputDir == Apply(dir, final.0)
          && outcome == final.1
    {
      var aborted;
      rows, aborted := ProcessBatch(base, batch, extract, io.tempOk, io.append);
      if aborted || !io.numbering {
        return Aborted, [];
      }
      outcome := FinishBatch(base, io.final);
    }

    /** get_next_batch_number followed by the final write under the
        numbered name. */
    method FinishBatch(base: string, io: FinalIo) returns (outcome: RunOutcome)
      modifies this
      ensures var n := NextBatchNumber(base, old(outputDir));
        var final := FinalAttempts(0, FinalName(base, n), TempName(base, n), TempName(base, n) in old(outputDir), io);
        && outcome == final.1
        && trace == old(trace) + final.0
        && outputDir == Apply(old(outputDir), final.0)
        && ledger == old(ledger)
    {
      var n := GetNextBatchNumber(base, outputDir);
      var file := FinalName(base, n);
      var temp := TempName(base, n);
      assert file != temp by {
        FinalNameNumbered(base, n);
        TempNameUnnumbered(base, n);
      }
      outcome := SaveFinal(file, temp, io);
    }
  }

  /** The first `k` appends went through and append `k` raised: the loop
      stops after `k` ledger lines, however long the batch. */
  lemma {:induction false} CompletedStop(appendOk: nat -> bool, n: nat, k: nat)
    requires k < n && Completed(appendOk, k) == k && !appendOk(k)
    ensures Completed(appendOk, n) == k
    decreases n
  {
    if n > k + 1 {
      CompletedStop(appendOk, n - 1, k);
    }
  }

  /** The document loop's trace and directory once it stopped after `k`
      ledger lines. */
  lemma BatchStopped(dir: seq<string>, temp: string, batch: seq<string>, tempOk: nat -> bool,
                     appendOk: nat -> bool, k: nat)
    requires k <= |batch| && Completed(appendOk, |batch|) == k
    ensures Started(appendOk, |batch|) == if k < |batch| then k + 1 else k
    ensures BatchEvents(temp, batch, tempOk, appendOk)
            == DocEvents(temp, batch, tempOk, k) + (if k < |batch| then [TempWrite(temp, k + 1, tempOk(k))] else [])
    ensures BatchDir(dir, temp, batch, tempOk, appendOk)
            == if AnyTempOk(tempOk, Started(appendOk, |batch|)) then AddName(dir, temp) else dir
  {
  }

  /** The directory grown by the intermediate write of one more document. */
  lemma DirStep(dir0: seq<string>, temp: string, tempOk: nat -> bool, k: nat, before: seq<string>, after: seq<string>)
    requires before == if AnyTempOk(tempOk, k) then AddName(dir0, temp) else dir0
    requires after == if tempOk(k) then AddName(before, temp) else before
    ensures after == if AnyTempOk(tempOk, k + 1) then AddName(dir0, temp) else dir0
  {
  }

  /** The trace grown by the events of one more document of the batch. */
  lemma DocEventsStep(t0: seq<Event>, temp: string, batch: seq<string>, tempOk: nat -> bool, k: nat)
    requires k < |batch|
    ensures t0 + DocEvents(temp, batch, tempOk, k) + [TempWrite(temp, k + 1, tempOk(k))] + [LedgerAppend(batch[k])]
            == t0 + DocEvents(temp, batch, tempOk, k + 1)
  {
    var d := DocEvents(temp, batch, tempOk, k);
    var w := [TempWrite(temp, k + 1, tempOk(k))];
    var l := [LedgerAppend(batch[k])];
    assert w + l == [TempWrite(temp, k + 1, tempOk(k)), LedgerAppend(batch[k])];
    AppendAssoc(t0 + d, w, l);
    AppendAssoc(t0, d, w + l);
  }

  /** The ledger grown by one more name of the batch. */
  lemma LedgerStep(l0: seq<string>, batch: seq<string>, k: nat)
    requires k < |batch|
    ensures l0 + batch[..k] + [batch[k]] == l0 + batch[..k + 1]
  {
    assert batch[..k + 1] == batch[..k] + [batch[k]];
    AppendAssoc(l0, batch[..k], [batch[k]]);
  }

  /** The directory after one attempt: the written file added, and the
      temporary artifact removed when its removal went through. */
  lemma ApplyAttempt(dir: seq<string>, file: string, temp: string, engine: Engine, a: nat,
                     w: IoOutcome, rm: IoOutcome)
    ensures Apply(dir, AttemptEvents(file, temp, temp in dir, engine, a, w, rm))
            == if w != Done then dir
               else if temp in dir && rm == Done then RemoveName(AddName(dir, file), temp)
               else AddName(dir, file)
  {
    var write := FinalWrite(file, engine, a, w);
    assert [] + [write] == [write];
    ApplySnoc(dir, [], write);
    if w == Done && temp in dir {
      ApplySnoc(dir, [write], TempRemoval(temp, rm));
    } else {
      assert AttemptEvents(file, temp, temp in dir, engine, a, w, rm) == [write];
    }
  }

  /** Adding another name leaves the temporary artifact's presence as it was. */
  lemma AddNameKeeps(dir: seq<string>, file: string, temp: string)
    requires file != temp
    ensures temp in AddName(dir, file) <==> temp in dir
  {
  }

  /** Growing the trace and the directory by the events of one attempt. */
  lemma Extended(t0: seq<Event>, done: seq<Event>, head: seq<Event>, dir: seq<string>)
    ensures t0 + done + head == t0 + (done + head)
    ensures Apply(dir, done + head) == Apply(Apply(dir, done), head)
  {
    ApplyAppend(dir, done, head);
  }
}
