# Judgment batch pipeline — a Dafny model

The modelled system reads a directory of Indian court-judgment PDFs and turns
them, a batch at a time, into spreadsheet rows. `main_2.py` is the driver:
it checks that the output directory is writable and has room, picks the next
batch number from the spreadsheets already there, selects the PDFs that the
processed-files ledger does not list yet, and runs ten extractors on each of
them. Every extractor returns a record of named fields; the driver merges the
records of one document in order, isolating any extractor that fails, saves
an intermediate spreadsheet after every document, appends each finished file
to the ledger, and writes the final spreadsheet with three attempts and a
fallback writer. A raise that no inner handler catches ends the run through
the outer handler of `process_pdfs`.

The extractors modelled here are the post-match logic of the following
programs. Programs 1, 2, 4, 7, 10, 11 and 12 are among the ten the driver
runs; programs 5 and 9 are standalone scripts that the driver does not import.

- `program_1.py` — case number, dates, judges, headnote cells and the other
  legal details;
- `program_2.py` — parties, their identity, the category and subcategory of
  the case, and the legal actions it mentions;
- `program_4.py` — statutes and legal references;
- `program_12.py` — the conclusion of the judgment and related details;
- `program_11.py` — the result of the case;
- `program_10.py` — the crime flags (offences against children and women);
- `program_9.py` — the section of precedents cited, or a ranked fallback;
- `program_7.py` — the cleaner of jumbled Supreme Court Reports citations;
- `program_5.py` — the case names cited paragraph by paragraph.

The driver is a class whose methods update the pipeline's state in place
(`BatchDriver.Pipeline`); the extractors are functions over the text of a
document, with loop-based methods proved equal to them where the source loops.
Regular expressions whose meaning is not spelled out in the source are given
to the model as predicates or as their lists of matches; the literal ones the
post-match logic depends on (subcategory tables, the citation shapes of
program 7, the judge separators, sentence splitting, `str.strip`) are coded
by hand. Text extraction from PDFs, OCR, NLP models, clocks and the
file system are inputs of the model.

## Model

| member | source | states |
|---|---|---|
| BatchDriver.Preflight | main_2.py:29-49 | the run stops as not writable exactly when the probe write fails, for low disk space exactly when it is writable but under 100 MB are free, and goes on otherwise |
| BatchDriver.NextBatchNumberIsOneMoreThanLargest | main_2.py:51-59 | the next batch number exceeds every number a "<base>_batch_<n>.xlsx" name in the directory carries, is 1 or one more than such a number, and is 1 when none is there |
| BatchDriver.GetNextBatchNumber | main_2.py:51-59 | the listing loop returns the next batch number: at least 1 and above every batch number already listed |
| BatchDriver.FinalNameNumbered | main_2.py:153 | the final artifact's name parses back to its own batch number |
| BatchDriver.TempNameUnnumbered | main_2.py:135 | a temporary artifact's name ("..._temp.xlsx") never matches the batch-number pattern |
| BatchDriver.NextBatchNumberIgnoresTemp | main_2.py:131-137 | writing the temporary artifact leaves the next batch number unchanged, so the final write uses the number the temporary writes used |
| BatchDriver.FinalNameIsFresh | main_2.py:150-153 | the final artifact never takes the name of a batch file already in the directory |
| BatchDriver.SelectedBatch | main_2.py:71-92 | every batch name is a listed ".pdf" name (any case) that the ledger does not hold, the batch is a prefix of the remaining work, and it holds at most batch_size and max_pdfs names |
| BatchDriver.SecondRunIsIdle | main_2.py:84-89 | when a batch takes all the remaining work, a second run over the same input with the grown ledger finds nothing left |
| BatchDriver.LedgerTextAppend | main_2.py:143-144 | appending a name adds exactly that name and a line break at the end of the ledger file |
| BatchDriver.LineEndIsFirstBreak | main_2.py:82 | the first line of the text ends at its first line boundary, or at its end when it has none |
| BatchDriver.LedgerReadBack | main_2.py:80-82 | reading the ledger back with `splitlines` gives the names written, in order, when no name holds a line boundary |
| BatchDriver.LineBreakInName | main_2.py:80-82 | a name holding a carriage return between two non-empty parts reads back as two names, neither of them the name written |
| BatchDriver.SecondRunIsIdleOnDisk | main_2.py:78-89 | with the ledger written to and read back from its file, a batch that takes all the remaining work leaves a second run nothing to do, when no listed name holds a line boundary |
| BatchDriver.NothingLeft | main_2.py:85 | a listing whose names are all in the ledger leaves no remaining work |
| BatchDriver.ResultsFor | main_2.py:102-117 | the programs are called in their listed order, program j + 1 at position j |
| BatchDriver.MergeStepLookup | main_2.py:116-126 | one program's turn writes exactly what its result writes (its fields, or its error marker with the message or "Empty result") and leaves every other field as it was |
| BatchDriver.MergeStepKeys | main_2.py:116-126 | one program's turn keeps the keys already there in order, keeps the record free of repeated keys, and is a dict update for a non-empty result |
| BatchDriver.MergeRecordLookup | main_2.py:100-126 | each field of a document's record holds what the last program writing it wrote; "File Name" holds the document name unless a program overwrote it |
| BatchDriver.MergeRecordShape | main_2.py:100-126 | every record starts with "File Name" and has no key twice |
| BatchDriver.FailureIsIsolated | main_2.py:124-126 | a program that raises or returns nothing leaves its own error marker and changes no other field |
| BatchDriver.ErrorKeyPosition | main_2.py:120 | two error keys are equal only when they name the same program position |
| BatchDriver.ProcessDocument | main_2.py:100-126 | the per-document loop builds exactly the merged record of all ten programs |
| BatchDriver.RowsAt | main_2.py:93-128 | the rows hold one record per batch document, in batch order |
| BatchDriver.LedgerAppendFollowsTempWrite | main_2.py:130-144 | a document's name reaches the ledger only right after the intermediate write of the rows ending with its record was attempted, whether or not that write succeeded |
| BatchDriver.FinalAttemptsCases | main_2.py:156-196 | the retry policy, with an attempt failing when its write or the removal of the temporary artifact after it raises: the first attempt that goes through saves; on the third attempt a PermissionError (of the write or the removal) gives up, any other error tries xlsxwriter once, which saves or gives up |
| BatchDriver.PrimaryAttempts | main_2.py:157-169 | at most three openpyxl attempts, in order, each carrying its write's outcome and each made only after every earlier one failed, by its write or by the removal after it |
| BatchDriver.FallbackOnlyAfterThirdFailure | main_2.py:178-191 | the xlsxwriter write is tried at most once, after every openpyxl event, and only when all three openpyxl attempts failed and the third for a reason other than permission |
| BatchDriver.FallbackAfterThirdFailure | main_2.py:178-196 | when the third openpyxl attempt fails for another reason, the xlsxwriter attempt ends the events and the run is saved exactly when its write and, if the temporary artifact exists, the removal after it go through |
| BatchDriver.PermissionOnLastAttemptGivesUp | main_2.py:170-177 | a PermissionError on the third attempt, of its write or of its removal, gives up without trying xlsxwriter and without any removal that went through |
| BatchDriver.TempRemovedOnlyAfterSuccess | main_2.py:156-191 | the temporary artifact is removed only right after a write that went through and only when it exists; a removal that goes through is the last event and the run is saved |
| BatchDriver.SavedIffSomeAttemptCompleted | main_2.py:156-196 | the run is saved exactly when some attempt's write and, if the temporary artifact exists, the removal after it both went through; that attempt is the last one and the saved file is the batch file |
| BatchDriver.WrittenYetUnsaved | main_2.py:158-177 | when every write goes through but every removal of the existing temporary artifact raises PermissionError, the run gives up although the batch file was written, and the temporary artifact stays |
| BatchDriver.Completed | main_2.py:95-144 | the number of documents whose ledger line was written: every append before it went through and the next one, if any, raised |
| BatchDriver.Pipeline.SaveIntermediate | main_2.py:131-140 | all rows so far go to the temporary artifact of the current batch number; the directory gains it only when the write succeeds; the ledger is untouched |
| BatchDriver.Pipeline.AppendLedger | main_2.py:143-144 | the name is appended to the ledger when the append goes through; when it raises nothing is appended; the directory is untouched |
| BatchDriver.Pipeline.Attempt | main_2.py:158-169 | one attempt: the write, then the removal of the temporary artifact when the write went through and the artifact exists; the handlers see the write's error, else the removal's; the directory gains the file and loses the artifact accordingly |
| BatchDriver.Pipeline.Round | main_2.py:157-196 | one pass of the retry loop ends the write exactly as the retry policy does from that attempt on, or goes on to the next attempt after an earlier attempt failed, leaving the artifact's presence as it was |
| BatchDriver.Pipeline.Fallback | main_2.py:182-196 | the xlsxwriter attempt: its events, and saved exactly when its write and the removal after it went through |
| BatchDriver.Pipeline.SaveFinal | main_2.py:156-196 | the retry loop produces exactly the events, directory and outcome of the retry policy and leaves the ledger untouched |
| BatchDriver.Pipeline.ProcessOne | main_2.py:95-144 | one document: its record appended to the rows, the intermediate write, then its name on the ledger when the append goes through; the batch number does not move |
| BatchDriver.Pipeline.ProcessBatch | main_2.py:95-144 | the document loop up to the first ledger append that raises: it aborts exactly then; one row per document started, the ledger grown by the documents whose append went through, and a write then a ledger line per document |
| BatchDriver.Pipeline.FinishBatch | main_2.py:150-196 | the batch file takes the next batch number and the final write follows the retry policy |
| BatchDriver.Pipeline.RunBatch | main_2.py:91-199 | after the batch is chosen: a ledger append or the numbering that raises aborts after the document loop's effects so far; otherwise the final write follows the loop |
| BatchDriver.Pipeline.Run | main_2.py:61-199 | process_pdfs: each early stop changes nothing, and neither does a raise from listing the input folder or reading the ledger; otherwise the batch's document loop up to the first append that raises, then, unless the run aborted, the final write |
| LegalDetails.CleanCaseNumbers | program_1.py:103-106 | the dedup loop keeps exactly the candidates that are neither inside nor around a number kept before them |
| LegalDetails.KeptCaseNumbersFacts | program_1.py:103-109 | the kept case numbers are a subsequence of the raw ones, no two are nested in each other, every dropped one is inside or around a kept one, and the first raw candidate is the case number |
| LegalDetails.KeepIsSubsequence | program_1.py:104-106 | the kept candidates keep the raw order and invent nothing |
| LegalDetails.KeepPairwiseUnrelated | program_1.py:104-106 | no two kept candidates are related |
| LegalDetails.KeepCovers | program_1.py:104-106 | a candidate is dropped only because of one kept before it |
| LegalDetails.KeepFirst | program_1.py:104-108 | the first candidate is always kept, first |
| LegalDetails.HeadnoteEntry | program_1.py:165-168 | a headnote renders exactly when its body is not blank, as "title: body" or the body alone |
| LegalDetails.HeadnoteEntries | program_1.py:164-168 | the rendered headnotes are non-empty and at most one per match |
| LegalDetails.CombineHeadnotes | program_1.py:163-168 | the combining loop yields the rendered headnotes in match order |
| LegalDetails.HeadnoteEntriesEmpty | program_1.py:161-175 | no headnote is rendered exactly when every match body is blank |
| LegalDetails.HeadnoteContent | program_1.py:158-175 | "Not found" with method "None" exactly when no body is there; otherwise the entries joined by " \| " and the pattern-matching method |
| LegalDetails.SplitCell | program_1.py:177-183 | the first part fits Excel's 32767-character cell, the two parts give back the whole text, and the second is empty exactly when everything fits |
| LegalDetails.FirstMarkerLine | program_1.py:188-189 | the first line holding the Supreme Court marker (case ignored), none before it |
| LegalDetails.DocType | program_1.py:185-196 | the type is "Order" or "Judgment" |
| LegalDetails.DocTypeOrderIff | program_1.py:185-196 | "Order" exactly when the first marker line is followed, within two lines, by a line that starts with "order" once stripped and lower-cased |
| LegalDetails.DetectDocType | program_1.py:186-196 | the nested loop with its two breaks computes the type |
| LegalDetails.DocTypeAtMarker | program_1.py:188-196 | only the first marker line decides; "Judgment" when there is none |
| LegalDetails.SeparatorEnd | program_1.py:205 | a comma ends after itself; otherwise a match is whitespace up to the first non-space, "and", then all the whitespace that follows |
| LegalDetails.SeparatorEndMatches | program_1.py:205 | a match is found exactly where a comma or a whitespace-"and"-whitespace run starts, and the text it covers is one whole separator (the "and" alternative taking all the whitespace after the word) |
| LegalDetails.SplitJudges | program_1.py:205 | the split yields at least one piece and no piece holds a comma |
| LegalDetails.PiecesReassemble | program_1.py:205 | the pieces with the dropped separators put back between them are the scanned text |
| LegalDetails.SeparatorsAreWhole | program_1.py:205 | every dropped text is one whole separator |
| LegalDetails.PiecesHoldNoSeparator | program_1.py:205 | no separator starts at any position inside a piece |
| LegalDetails.SplitJudgesInverse | program_1.py:205 | the split is undone by putting the separators back, drops only whole separators, and leaves no separator inside any piece |
| LegalDetails.NoSeparatorOnePiece | program_1.py:205 | text without a separator is one piece |
| LegalDetails.CollectJudgeNames | program_1.py:203-210 | the judge loop keeps each stripped piece that is not blank and not "J", "JJ" or "CJI" (any case), each once |
| LegalDetails.KeptJudgesIsDedup | program_1.py:206-210 | the judge names are the qualifying stripped pieces in order of first occurrence, each once |
| LegalDetails.JudgeNamesFacts | program_1.py:199-212 | no judge name is blank, a suffix, repeated or holds a comma, and every qualifying piece is listed |
| LegalDetails.ExtractLegalDetails | program_1.py:65-237 | the method builds the record of the modelled parts, or the single error key when a library call raised |
| LegalDetails.AssembleKeys | program_1.py:214-232 | the record has the thirteen keys in the source's order, each once |
| LegalDetails.AssembleCells | program_1.py:177-232 | the two headnote cells give back the whole headnote text, the first fits a cell, and the judge count is the number of names or "Not found" |
| LegalDetails.LegalDetailsShape | program_1.py:65-237 | a failure yields the error key alone; a document yields the thirteen keys with the headnote and judge-count cells as above, and the case number is the first candidate found (stripped) or "Not found" when there is none |
| Parties.CategoriesDisjoint | program_2.py:23-45 | no subcategory is listed under two of the three categories |
| Parties.FullFormIn | program_2.py:67-69 | the full form of the first table entry with the given key, none exactly when no entry has it |
| Parties.NormalizeSubcategory | program_2.py:65-70 | the loop over the short-form table returns the full form of the lower-cased stripped input, or the input unchanged |
| Parties.ShortKeysDistinct | program_2.py:48-62 | the short-form keys are pairwise different |
| Parties.NormalizeCases | program_2.py:65-70 | the full form exactly when the lower-cased, stripped input is a short-form key; the input itself otherwise |
| Parties.FullFormsAreFixed | program_2.py:48-70 | every full form of the table normalizes to itself |
| Parties.NormalizeIdempotent | program_2.py:65-70 | normalizing twice is normalizing once |
| Parties.CategoryIn | program_2.py:305-308 | the first category whose list holds the subcategory, none exactly when no list holds it |
| Parties.CategoryOfCases | program_2.py:23-45 | a subcategory gets Civil, Criminal or Others exactly when that list holds it, and nothing when none does |
| Parties.CategoryKnown | program_2.py:305-308 | a listed subcategory never gets the category "Unknown" |
| Parties.FindCategory | program_2.py:332-336 | the category loop yields the category of the subcategory, or leaves the current one |
| Parties.LineSubcategory | program_2.py:321-352 | the subcategory of the first of the target lines where either pattern matched; none exactly when no line matched |
| Parties.ScanLines | program_2.py:324-352 | the line loop computes that subcategory |
| Parties.InReCategoryAgrees | program_2.py:354-372 | the In Re branch's category is the table category of the subcategory it found |
| Parties.FirstIn | program_2.py:363-368 | the first In Re name that the title or the lines mention, none exactly when none is mentioned |
| Parties.ScanInRe | program_2.py:363-372 | the In Re loop computes that name |
| Parties.CategoryOfMember | program_2.py:23-45 | each entry of a category list is categorised under that category |
| Parties.ScanFirstPage | program_2.py:374-387 | the nested loop collects every mentioned list entry in table order, and the category becomes that of the first hit when it was "Unknown" |
| Parties.Backfill | program_2.py:389-394 | the first category whose list holds any found subcategory, none exactly when no list holds one |
| Parties.FindBackfill | program_2.py:389-394 | the back-fill loop computes it |
| Parties.FirstCategoryWith | program_2.py:389-394 | the loop over a list of categories returns the first whose subcategories hold one of the given ones, or none |
| Parties.CategorizeShortCircuit | program_2.py:299-311 | a given subcategory with a known category is returned at once, alone |
| Parties.CategorizeRest | program_2.py:313-400 | otherwise the result is the four stages in the source's order |
| Parties.DetermineCategory | program_2.py:295-400 | the method computes the staged result |
| Parties.Fallbacks | program_2.py:353-400 | when the first seven lines leave the list empty the category is "Unknown"; from there the In Re table, the first page, the back-fill and the "Unknown" list compute the staged result |
| Parties.ResolveNeverReference | program_2.py:302-303 | the rewritten name is never one of the three reference names |
| Parties.CategorizeAgrees | program_2.py:295-400 | the list of subcategories is never empty, and the category is "Unknown" exactly when no found subcategory is listed; otherwise it is the category of a found one |
| Parties.BackfillNeverChanges | program_2.py:389-394 | the back-fill never changes the category: whenever it runs, no found subcategory is listed |
| Parties.CategorizeNothingFound | program_2.py:396-400 | with nothing found by any search the result is ("Unknown", ["Unknown"]) |
| Parties.FirstMentioned | program_2.py:429-435 | the value of the first table entry whose alternatives occur in the text, the default when none does |
| Parties.GetLegalActions | program_2.py:416-435 | the loop over the action table returns the pair of the first pattern found in the lower-cased text |
| Parties.FindFirstMentioned | program_2.py:431-435 | the loop over a first-match table returns the value of the first entry one of whose alternatives occurs in the text, or the default |
| Parties.FirstTwoEntries | program_2.py:419-420 | "civil appeal" is looked up before "appeal" |
| Parties.AppealActions | program_2.py:419-420 | a civil appeal is filed as a Civil Appeal, any other appeal as a Criminal Appeal, both contested |
| Parties.NoActionPattern | program_2.py:435 | a text mentioning no pattern gets the default pair |
| Parties.IdentityCases | program_2.py:520-521 | Individual exactly when an individual indicator occurs; Organization, Government, Other only when no earlier kind's indicator occurs |
| Parties.PartyDefaults | program_2.py:439-450 | the ten party keys in order, each with the same value |
| Parties.FirstNonEmpty | program_2.py:461-507 | the first present non-empty candidate name, none exactly when all are blank |
| Parties.PartyFields | program_2.py:509-521 | the filled-in party record has the ten party keys in order |
| Parties.PartyInfoFields | program_2.py:438-524 | every field stays "Unknown" unless both names are found; then the names, roles, actions and identities are filled in |
| Parties.FillDefaults | program_2.py:509-521 | filling the defaults gives the filled-in fields |
| Parties.PartyKeysDistinct | program_2.py:439-450 | the party keys are pairwise different |
| Parties.UpdateParty | program_2.py:511-518 | the update writes the six fields in place and keeps the key order |
| Parties.ExtractHearingDates | program_2.py:270-292 | the dates are the context dates (or the fallback dates) without repeats, and the count is their number |
| Parties.HearingDatesFacts | program_2.py:270-292 | the dates are distinct, are exactly the source dates, their number is the number of distinct source dates, and "Unknown" is shown for none (also lines 594-595) |
| Parties.ExtractPartiesErrors | program_2.py:527-601 | no text (also what an unreadable PDF gives, since the reader returns an empty string) and no paragraphs give their own error entry; an exception from a later step gives its message as the only entry |
| Parties.ExtractPartiesRecord | program_2.py:527-597 | a readable document gives the sixteen fields in the initial order: citation, title, dates, count, category, subcategories, then the party outcome |
| Parties.TitleStage | program_2.py:538-560 | setting the citation and title replaces the first two fields in place |
| Parties.PartyStage | program_2.py:562-586 | the party step replaces exactly the party fields |
| Parties.OutcomeCases | program_2.py:562-586 | the party fields are the party info for a title that is not In Re and either has a versus or yields a filer name other than "Unknown"; they stay "None" otherwise |
| Parties.InfoShape | program_2.py:438-524 | the party record has the ten keys, and its filer name is the found filer when both names are found, "Unknown" otherwise |
| Parties.LastStages | program_2.py:587-597 | the category and hearing steps replace their fields in place and keep the sixteen keys |
| Parties.ResultKeysDistinct | program_2.py:538-555 | the sixteen keys are pairwise different |
| LegalReferences.LessIrreflexive | program_4.py:57-61 | no string sorts before itself |
| LegalReferences.LessTransitive | program_4.py:57-61 | the string order is transitive |
| LegalReferences.LessTotal | program_4.py:57-61 | any two different strings are ordered one way or the other |
| LegalReferences.Insert | program_4.py:57-61 | putting a string into an ascending list keeps it ascending and adds exactly that string |
| LegalReferences.SortedSet | program_4.py:57-61 | the sorted de-duplicated list is strictly ascending and holds exactly the found strings (also line 70) |
| LegalReferences.AscendingUnique | program_4.py:57-61 | two ascending lists with the same elements are equal |
| LegalReferences.SortedSetCanonical | program_4.py:57-61 | the sorted set depends only on which strings were found, not on their order or repetition |
| LegalReferences.LawsCases | program_4.py:63-71 | with five or more other references the laws are "Not found"; below that they are the sorted wanted laws (generic uses of "law" dropped, case ignored), or "Not found" when none is left |
| LegalReferences.ReferencesShape | program_4.py:31-88 | a readable text gives the six keys in order; no text or a failure give the single error entry |
| LegalReferences.ReferenceKeysDistinct | program_4.py:74-81 | the six keys are pairwise different |
| LegalReferences.CellCases | program_4.py:75-80 | a cell is "Not found" for an empty list, the one entry alone, or the entries joined with ", " |
| LegalReferences.ReferencesCanonical | program_4.py:48-81 | the record is the same for any two match lists with the same elements |
| CaseDetails.TextByPage | program_12.py:12-26 | the stripped text of each page; no pages when the PDF cannot be read or every page is blank |
| CaseDetails.FirstHeading | program_12.py:57-59 | the first paragraph of a page that a conclusion pattern matches, none exactly when no paragraph does |
| CaseDetails.LatestPage | program_12.py:54-59 | the last page with a heading paragraph, none exactly when no page has one |
| CaseDetails.ExtractConclusion | program_12.py:39-89 | the backward page search with its flag and breaks computes the conclusion |
| CaseDetails.CollectConclusion | program_12.py:60-71 | the conclusion text is the heading paragraph, the later paragraphs of its page and every later page, one per line |
| CaseDetails.RestOfPage | program_12.py:60-62 | the heading paragraph and the later paragraphs of its page, one per line |
| CaseDetails.HeadingPageFound | program_12.py:54-72 | a page with a heading paragraph and none on any later page is the one found, at its first heading paragraph |
| CaseDetails.ConclusionFallback | program_12.py:78-87 | with no heading anywhere: the last two pages joined by a line break, the only page, or "Not Found" |
| CaseDetails.ConclusionLayout | program_12.py:60-71 | a found conclusion starts with its heading paragraph; on the last page it is the rest of that page, on an earlier page the rest of the page followed by every later page |
| CaseDetails.CaseDetailsCases | program_12.py:92-109 | one key: the error when nothing was read or every page is blank, the conclusion of the stripped pages otherwise |
| CaseResult.Window | program_11.py:130 | the last fifty sentences, or all of them when there are fewer |
| CaseResult.PhraseEnd | program_11.py:125 | a match of the rest of the marker ends inside the text, and one that ends in a non-space pattern character ends on that character |
| CaseResult.MarkerAt | program_11.py:125 | a marker match is exactly a word boundary before the phrase, the phrase up to its colon, and, with the trailing `\b` as written, a word character directly after the colon |
| CaseResult.FindMarker | program_11.py:138-140 | a marker match found at or after a position ends after a colon, followed by a word character when the trailing `\b` is kept |
| CaseResult.MarkerEnd | program_11.py:138-142 | where the marker search in a sentence ends, inside the sentence and after a colon followed by a word character |
| CaseResult.MarkerEndIntended | program_11.py:125 | the marker without its trailing `\b` ends on a colon inside the sentence |
| CaseResult.MarkerEndStricter | program_11.py:125 | wherever the marker as written matches, the marker without the trailing `\b` matches too |
| CaseResult.PhraseEndExact | program_11.py:125 | text that spells a single-spaced pattern exactly, ignoring case, matches it to its end |
| CaseResult.MarkedLineMissed | program_11.py:125 | as written, "Result of the case: " followed by any colon-free remainder is never an explicit result |
| CaseResult.MarkedLineFound | program_11.py:125 | without the trailing `\b`, the same line is matched, the match ending on its colon |
| CaseResult.MarkerNeedsWordAfterColon | program_11.py:125 | a sentence in which no colon is followed by a word character never matches the marker, so "Result of the case: Allowed" is not taken as explicit (also line 138) |
| CaseResult.MarkerEndBounded | program_11.py:140-142 | the marker search never ends past the sentence |
| CaseResult.LatestMarked | program_11.py:137-138 | the latest window sentence holding the marker, none exactly when no sentence holds it |
| CaseResult.Matching | program_11.py:148-165 | the outcome sentences are exactly the window sentences that are not citations and match an outcome keyword, in text order |
| CaseResult.NonReference | program_11.py:169 | the window sentences that are not citations, in order, no more than the window |
| CaseResult.NonReferenceMembers | program_11.py:169 | a sentence is kept exactly when it is in the window and is not a citation |
| CaseResult.Fallback | program_11.py:168-170 | the last four (or fewer) sentences that are not citations |
| CaseResult.Reversed | program_11.py:137 | reversal keeps the length and mirrors the positions (also lines 165, 172) |
| CaseResult.ExtractCaseResult | program_11.py:54-181 | the method computes the single-key record |
| CaseResult.DecideOutcome | program_11.py:136-175 | the three searches over the window, in the source's order, give the outcome |
| CaseResult.FindExplicit | program_11.py:136-145 | the backward search finds a result exactly when a window sentence holds the marker, and then returns the latest such sentence's text after the marker |
| CaseResult.CollectMatching | program_11.py:148-165 | the backward collection, reversed back, is the outcome sentences in order, and the flag is set exactly when there is one |
| CaseResult.LatestMarkedIs | program_11.py:137-145 | a marked sentence with no marked sentence after it is the latest |
| CaseResult.FallbackByReversal | program_11.py:169-172 | the first four non-citations of the reversed window, reversed back, are the last four non-citations in order |
| CaseResult.NonReferenceReversed | program_11.py:169 | dropping citations commutes with reversal |
| CaseResult.OutcomeExplicit | program_11.py:137-145 | the latest sentence holding the marker decides the result: "Result of the case: " and its stripped remainder with a full stop |
| CaseResult.OutcomeMatching | program_11.py:163-166 | without a marker, the outcome sentences are quoted in order, joined by ". " and ended with a full stop |
| CaseResult.OutcomeFallback | program_11.py:167-175 | without a marker or an outcome sentence, the last four non-citations are quoted; "Not Found" when every sentence is a citation |
| CaseResult.NoMatching | program_11.py:148-161 | when every sentence is a citation or states no outcome, nothing is collected |
| CaseResult.AllReferences | program_11.py:169 | when every sentence is a citation, none is kept |
| CaseResult.CaseResultCases | program_11.py:54-61 | the record always has the one key `case_result`: the missing-model message, the no-text message, or the outcome of the last fifty sentences (also lines 177-178) |
| Text.Sentences | program_11.py:128-129 | each sentence is non-empty, holds no '.', '!' or '?', and has no whitespace at either end |
| Text.Dedup | program_2.py:290 | the elements in order of first occurrence: no repeats, the same members, no longer |
| Text.StripEmpty | program_12.py:18-19 | stripping leaves nothing exactly when the text is all whitespace |
| Text.StripIsInner | program_12.py:18 | the stripped text is what lies between the leading and the trailing whitespace, and starts and ends with a non-space character |
| Text.StripBlanks | program_5.py:33 | the stripped non-blank pieces are non-empty and have no whitespace at either end |
| Text.PySlice | main_2.py:71 | Python's `s[:n]`: a prefix of `n` elements, or of all but `-n` when `n` is negative (also line 92) |
| Text.NatToStringInjective | program_5.py:75 | different numbers have different numerals |
| Records.Lookup | main_2.py:116-126 | a key is found exactly when it is one of the record's keys |
| Records.PutFacts | main_2.py:120 | after `d[k] = v` the key maps to the new value, an existing key keeps its place, a new key goes last, and every other key keeps its value (also line 126) |
| Records.UpdateFacts | main_2.py:123 | after `d.update(e)` the old keys come first in their order, the keys are those of both, and the values of `e` win |
| Records.UpdateKeepsKeys | main_2.py:123 | an update whose keys are all present keeps the key order |
| CrimeInfo.CrimeFlags | program_10.py:82-105 | the loops over sentences, categories and patterns set each category's flag exactly when some sentence that is neither a citation nor legal jargon matches the literal first pattern, or another pattern together with the victim context |
| CrimeInfo.ExtractCrimeInfo | program_10.py:20-107 | an empty text gives the error entry; otherwise the two flags, children first, each set exactly as above over the sentences of the text |
| CrimeInfo.FlaggedMembers | program_10.py:82-105 | a flag depends only on which sentences occur: it is set exactly when some sentence of the text sets it |
| CrimeInfo.FlaggedOrderFree | program_10.py:82-105 | the order and repetition of the sentences do not matter |
| CrimeInfo.FlaggedAppend | program_10.py:82-105 | more text never clears a flag: the flag of two texts together is the disjunction of their flags |
| CrimeInfo.NonCountingIgnored | program_10.py:83-87 | a citation or legal-jargon sentence changes no flag |
| CrimeInfo.LeadPatternAlone | program_10.py:93-103 | in a sentence that counts, the literal first pattern sets its flag on its own, and without the victim context nothing else does |
| CrimeInfo.FlaggedSnoc | program_10.py:82-105 | one more sentence sets the flag exactly when it was set or that sentence sets it |
| PrecedentCitations.DropHeader | program_9.py:20 | the lines from the first one that does not look like the head of the report: every line dropped before it looks like one (also lines 29-31) |
| PrecedentCitations.FirstPageStep | program_9.py:21-31 | one more line: a noise line changes nothing, a head-like line is dropped while nothing has been kept, any other line is kept |
| PrecedentCitations.FilterFirstPage | program_9.py:17-32 | the line loop with its `skip` flag keeps exactly the first-page lines described above |
| PrecedentCitations.FirstPageKeeps | program_9.py:18-32 | no noise line survives, the first kept line does not look like a head line, and a line that is neither is always kept |
| PrecedentCitations.PdfText | program_9.py:35-39 | the text is empty or starts and ends with a non-space character |
| PrecedentCitations.ReadText | program_9.py:10-42 | the page loop collects each non-blank page (the first one filtered) with a line break, and strips the whole |
| PrecedentCitations.ReadPage | program_9.py:15-34 | one page's contribution: nothing for an empty page or one whose text (for the first page, after its head lines are filtered out) is all whitespace, else that text followed by a line break |
| PrecedentCitations.Paragraphs | program_9.py:45-52 | the paragraphs are non-empty with no whitespace at either end, and a blank text has none |
| PrecedentCitations.Run | program_9.py:86-90 | the longest prefix of paragraphs that are neither numbered nor open the next section |
| PrecedentCitations.RunIs | program_9.py:86-90 | a prefix of continuing paragraphs that stops at the end or before one that does not continue is that run |
| PrecedentCitations.SectionFacts | program_9.py:83-91 | a non-empty section is the paragraphs right after the first heading paragraph, up to the end or the first numbered or section-opening paragraph |
| PrecedentCitations.FindSection | program_9.py:83-91 | step 1's two loops with their breaks compute the section |
| PrecedentCitations.ContinuingRun | program_9.py:86-90 | the inner loop collects the paragraphs after the heading until the end or the first numbered or section-opening one, and that is the run |
| PrecedentCitations.SectionAfter | program_9.py:84-91 | when the first heading paragraph is at `i`, the section is the run of the paragraphs after `i` |
| PrecedentCitations.SectionWithoutHeading | program_9.py:84-91 | with no heading paragraph the section is empty |
| PrecedentCitations.Count | program_9.py:108-109 | at most five keyword patterns are counted |
| PrecedentCitations.CollectCandidates | program_9.py:98-105 | the candidate loop keeps exactly the paragraphs that are candidates, in order |
| PrecedentCitations.LowerHasNoUpper | program_9.py:100 | a lower-cased paragraph has no upper-case letter |
| PrecedentCitations.AsWrittenNeverMatches | program_9.py:101-102 | as written, the upper-case reporter patterns never match the lower-cased paragraph (patterns at lines 75 and 78) |
| PrecedentCitations.AsWrittenNeedsVerb | program_9.py:101-109 | as written, a paragraph is a candidate exactly when it uses a reference verb and is not in the acts or keywords list or the cause title, and it matches at most three keyword patterns |
| PrecedentCitations.ReporterCitationMissed | program_9.py:101-105 | as written, the verb-less citation "(2019) 3 SCC 45" is never a candidate |
| PrecedentCitations.ReporterCitationTaken | program_9.py:101-105 | as intended, "(2019) 3 SCC 45" is a candidate unless it is in the acts or keywords list or the cause title |
| PrecedentCitations.InsertRanked | program_9.py:110 | inserting keeps the list ranked best first and adds exactly the one entry |
| PrecedentCitations.SortRanked | program_9.py:110 | the sorted candidates are ranked best first by (pattern count, length) and are a permutation of the candidates |
| PrecedentCitations.InsertStable | program_9.py:110 | inserting keeps the order of the entries with any one key |
| PrecedentCitations.SortStable | program_9.py:110 | the sort is stable: candidates with equal keys keep their order in the judgment |
| PrecedentCitations.ExtractCitations | program_9.py:55-114 | the method computes the record with the keyword patterns as written: upper-case reporter patterns searched in the lower-cased paragraph |
| PrecedentCitations.CitationsCases | program_9.py:55-96 | for any keyword patterns, no text and no paragraphs give their messages; otherwise the paragraphs decide, and a found section is joined line by line |
| PrecedentCitations.CitationsNotFound | program_9.py:96-107 | for any keyword patterns, as written or corrected: without a section and without a candidate the record says "Not found" (default at line 65) |
| PrecedentCitations.CitationsRanked | program_9.py:96-111 | for any keyword patterns, as written or corrected: without a section, the candidates are joined line by line, best ranked first, each as often as it occurs |
| PrecedentCitations.SingleParagraphMissed | program_9.py:93-107 | a judgment whose one paragraph is not a heading and not a candidate gives "Not found" |
| PrecedentCitations.SingleParagraphTaken | program_9.py:93-111 | a judgment whose one paragraph is not a heading but is a candidate gives that paragraph as the record |
| PrecedentCitations.ReporterCitationNotFound | program_9.py:65-111 | as written, a judgment whose one paragraph is "(2019) 3 SCC 45", under no heading, gives "Not found" |
| PrecedentCitations.ReporterCitationFound | program_9.py:65-111 | with the corrected patterns the same judgment gives the citation, unless it is in the acts or keywords list or the cause title |
| CitationCleaner.Replace | program_7.py:16 | `replace` of one character keeps the length and swaps exactly that character |
| CitationCleaner.Fixed | program_7.py:13 | a corrected character is never 'O', 'I' or 'T', and any other character is left as it is |
| CitationCleaner.FixedByTable | program_7.py:13-16 | applying the correction table entry by entry is the same as correcting each character once |
| CitationCleaner.Corrected | program_7.py:13-16 | the corrected text has the same length, each character corrected |
| CitationCleaner.Correct | program_7.py:13-16 | the correction loop, one `replace` per table entry, gives the corrected text |
| CitationCleaner.CorrectedFacts | program_7.py:13-16 | the corrected text has no 'O', 'I' or 'T' left, and correcting it again changes nothing |
| CitationCleaner.ReporterAt | program_7.py:18-34 | the first of the reporters, in the alternation's order, that occurs at a position; none exactly when none does |
| CitationCleaner.HeadAt | program_7.py:18-34 | a head match: the bracketed year, spaces, the volume digits, spaces and a reporter, in that order |
| CitationCleaner.LeadingDigits | program_7.py:29-35 | the leading digits of the original line, maximal, "" when there are none |
| CitationCleaner.FindHead | program_7.py:34 | the leftmost head match, none exactly when there is no head anywhere |
| CitationCleaner.FindYear | program_7.py:44 | the leftmost bracketed four-digit year, none exactly when there is none |
| CitationCleaner.FindNumber | program_7.py:45 | the leftmost whole number at or after a position, none exactly when there is none |
| CitationCleaner.FoldReporterAt | program_7.py:46 | the first reporter that occurs at a position when case is ignored |
| CitationCleaner.FindReporter | program_7.py:46 | the leftmost reporter, case ignored, as it is written in the text; none only when no reporter occurs anywhere |
| CitationCleaner.TrailingNumber | program_7.py:47 | the whole number that ends the text, a non-empty run of digits |
| CitationCleaner.CleanJumbledCitation | program_7.py:12-56 | the method is the cleaner for either volume search: from the start of the text (`FromStart`) as the source searches, or after the year (`AfterYear`) as corrected |
| CitationCleaner.OnlyScrOrScc | program_7.py:13-18 | in a corrected text only "S.C.R." and "SCC" can stand as reporter, since "AIR" and "INSC" have lost their 'I' |
| CitationCleaner.RenderLayout | program_7.py:42 | a rendered citation has the year, the volume, the reporter and the page at their places, one space apart (also line 55) |
| CitationCleaner.LayoutFullForm | program_7.py:18 | a citation rendered from a year, a volume, "S.C.R." or "SCC" and a page has the full form (also line 55) |
| CitationCleaner.ReporterKept | program_7.py:27-32 | a reporter found in a corrected text is still found, the same one, when the text is extended |
| CitationCleaner.HeadExtended | program_7.py:27-32 | extending a corrected text after a head keeps the head where it was |
| CitationCleaner.PartialPlusPage | program_7.py:27-32 | a head without page followed by a space and a number has the full form |
| CitationCleaner.RepairFullForm | program_7.py:22-42 | every repair made from the original line has the full form |
| CitationCleaner.RepairPlain | program_7.py:22-42 | a repair made from corrected texts has no 'O', 'I' or 'T' |
| CitationCleaner.CleanStable | program_7.py:12-42 | a citation in full form, or repaired from the original line, has the full form, and cleaning it again returns it unchanged |
| CitationCleaner.RebuiltCases | program_7.py:44-56 | the last fallback returns the text uncorrected when the year, the volume or the page is missing; otherwise it lays out the year, the volume, the reporter ("S.C.R." by default) and the page |
| CitationCleaner.RebuiltFullForm | program_7.py:44-56 | when the reporter is "S.C.R." or "SCC" (or none is found), the rebuilt citation has the full form |
| CitationCleaner.VolumeIsYear | program_7.py:45 | as written, when no digit comes before the year, the volume found is the year's own four digits |
| CitationCleaner.YearRepeated | program_7.py:44-55 | so the last fallback, as written, repeats the year as the volume |
| CitationCleaner.VolumeAfterYear | program_7.py:45 | searched after the year, the volume is the first whole number after the year's closing bracket |
| CitationCleaner.NoReporterLetters | program_7.py:46 | a text without the letters of any reporter gets the default "S.C.R." (also line 51) |
| CitationCleaner.JumbledFallsBack | program_7.py:18-56 | "[2024] 10 961" needs no correction, has no head, and goes to the last fallback |
| CitationCleaner.JumbledNumbers | program_7.py:44-45 | in "[2024] 10 961" the first whole number is "2024" and the first after the year is "10" |
| CitationCleaner.JumbledPage | program_7.py:47 | the page of "[2024] 10 961" is "961" |
| CitationCleaner.JumbledAsWritten | program_7.py:44-55 | as written, "[2024] 10 961" is cleaned to "[2024] 2024 S.C.R. 961" |
| CitationCleaner.JumbledCorrected | program_7.py:44-55 | with the volume searched after the year, "[2024] 10 961" is cleaned to "[2024] 10 S.C.R. 961" |
| CaseCitations.Cited | program_5.py:35-49 | at most one entry per paragraph, each for a paragraph of the text, holding the case names found in it, at least one, each once |
| CaseCitations.FindCitations | program_5.py:35-49 | the paragraph loop computes those entries, in paragraph order |
| CaseCitations.ParagraphsOf | program_5.py:43-47 | the paragraphs of the entries, one per entry |
| CaseCitations.CitedParagraphs | program_5.py:43-47 | the entries are exactly the paragraphs that name a case, in text order and each as often as it occurs |
| CaseCitations.Preview | program_5.py:74 | at most 203 characters: a short paragraph whole, a longer one cut at 200 with "..." after |
| CaseCitations.PreviewUnchanged | program_5.py:74 | the preview equals the paragraph exactly when it is short, or 203 characters long ending in "..." |
| CaseCitations.DetailNumber | program_5.py:75 | two details with different numbers differ |
| CaseCitations.Details | program_5.py:71-75 | one detail per entry, numbered from 1 |
| CaseCitations.AllNames | program_5.py:73 | the list of all names holds exactly the names of the entries |
| CaseCitations.Summarise | program_5.py:71-75 | the entry loop gives the list of all names and the numbered details |
| CaseCitations.DetailsDistinct | program_5.py:71-75 | no two details are the same, even when two entries are |
| CaseCitations.DetailsNumbered | program_5.py:75 | the k-th detail starts with "Citation k: " |
| CaseCitations.Paragraphs | program_5.py:30-33 | the paragraphs are non-empty with no whitespace at either end |
| CaseCitations.ExtractCitations | program_5.py:52-89 | the method computes the record |
| CaseCitations.FoundNames | program_5.py:78-80 | the names listed as found are each listed once, and are exactly the case names found in some paragraph |
| CaseCitations.CitationRecordCases | program_5.py:52-86 | no text gives the error entry; no paragraph naming a case gives the two fixed messages; otherwise the names found and one detail per paragraph naming a case |

## Left out

- Regular-expression matching in general: patterns whose meaning the post-match logic does not depend on are inputs (predicates or match lists); only the literal tables and shapes named above are coded.
- Casing is ASCII only; the extra equivalences of `re.IGNORECASE` (such as the long s) are not modelled, and `\d` is taken as the ASCII digits although Python also accepts other Unicode digits.
- Text extraction from PDFs (pdfplumber, PyPDF2) and OCR (`program_7.py:65-69`) are not modelled: the text of a document, page by page, is an input or a failure.
- The spaCy named-entity fallbacks and the language detection are not modelled; their results, where the post-match logic uses them, are inputs.
- `extract_case_title` and the title and date parsing of program 1 are inputs: their results are given to the model.
- Writing spreadsheets (`export_to_excel`, pandas), `time.sleep`, logging and printing are not modelled; a write is an outcome given as a parameter (success, permission error, other error).
- The base file name is spliced into the batch-number regex unescaped; the model reads it as a literal prefix.
- In the extractors, exceptions are modelled as `Result` failures at the places where the source catches them. In the driver every call that can raise is an outcome given to the model (`BatchDriver.Io`): listing the input folder, reading the ledger, each intermediate write, each ledger append, numbering the final artifact, and each write and removal of the final write; a raise that no inner handler catches is the `Aborted` outcome of the outer handler. A raise from `shutil.disk_usage` or from building the data frame is not modelled.
- BatchDriver.SecondRunIsIdle: states the ledger as the list of names written. Names go to the file one per line and come back through `splitlines`, so the lemma holds on disk only for names without a line boundary (`SecondRunIsIdleOnDisk`); `LineBreakInName` shows a name that comes back split.
- Text.IsWordChar: `\w` and `\b` are taken as ASCII letters, digits and the underscore, while Python's `re` also counts other Unicode letters and digits. This affects CaseResult.MarkerAt, PrecedentCitations.WordAt, CitationCleaner.NumberAt and CitationCleaner.TrailingNumber on non-ASCII text.
- `extract_citation` of program 7 (`program_7.py:58-92`) reads the PDF and is not modelled; the cleaner it calls is.
- `extract_text_from_pdf` and `export_to_excel` of program 5 are not modelled.
- CaseCitations.FoundNames: `list(set(...))` has an order Python does not fix; the model lists the names in first-occurrence order and states only which names are listed and that each is listed once.
- Programs 3, 6 and 8 are run by the driver but are not part of this model; they are extractors given as parameters like the others.
- The order of a directory listing is a given sequence.
- Free disk space is an integer compared with 100 MB; how it is measured is not modelled.
- BatchDriver: the ledger line for a file is appended after its intermediate save even when that save failed, as the code does; a ledger that lists only durably written files is not what the code guarantees, and the model follows the code.

## Findings

| source | as written | input that shows it | evidently intended | confidence | as-written member | corrected member |
|---|---|---|---|---|---|---|
| program_9.py:101-102 | the fallback patterns for "SCR", "SCC" and "S.C.R." are written in upper case but searched in the lower-cased paragraph, so they never match (the same holds for the count at program_9.py:108-109) | a paragraph "(2019) 3 SCC 45" whose other patterns do not match | these reporter citations are found whatever their case | not executed | PrecedentCitations.ReporterCitationNotFound | PrecedentCitations.ReporterCitationFound |
| program_7.py:45 | the volume is the first whole number of the whole text, which is the year's own digits when the text starts with the bracketed year | "[2024] 10 961" is cleaned to "[2024] 2024 S.C.R. 961" | the volume is the first number after the year: "[2024] 10 S.C.R. 961" | not executed | CitationCleaner.JumbledAsWritten | CitationCleaner.JumbledCorrected |
| program_11.py:125 | the explicit-result marker ends in `:\b`, so it needs a word character directly after the colon; the usual "Result of the case: Allowed", with a space after the colon, is never taken as explicit and falls through to the keyword search | "Result of the case: Appeal allowed" | the marker matches the phrase and its colon whatever follows | not executed | CaseResult.MarkedLineMissed | CaseResult.MarkedLineFound |
