# The qualification oracle of docx2typed-rs, modelled in Dafny

docx2typed-rs is a Rust engine that edits Word documents. Its qualification scripts check it from the outside: they map a
source document to exact bytes, predict one edit, drive the engine over a line protocol and turn what they see into a
verdict. This project models those scripts and proves what their verdicts rest on. The engine itself is an adversary here:
it may answer anything and write any file.

The model follows the scripts' own shape. Loops over bytes, tags, pages, lines and entries are methods with invariants; the
objects that a script updates in place (the results file, the archive, the list a tree walk appends to) are classes; what a
method computes is a specification function, and the promises are lemmas about those functions.

| modules | what they hold |
|---|---|
| `Sequences`, `Sorting` | Python's `find`, `count`, slicing and `sorted` |
| `Scanner`, `Markup`, `ScanStability`, `ScannerLaws` | the byte scanner; well-formed markup as trees with a printer; scanning undoes printing; replaced query bytes do not disturb it |
| `Locator`, `LocatorTrees`, `LocatorResults`, `Locating`, `LocatorTables`, `LocatorControls`, `LocatorDirects` | the paragraph locator, what its stack machine computes on a tree, and when its ends, table numbers and direct entries are right |
| `TextRanges`, `TextPairing` | byte ranges of `w:t` elements from parser callbacks |
| `Queries`, `Target`, `TargetFacts`, `TargetOrder`, `LeafEdits`, `PredictedEdit` | candidate queries, UTF-8, target selection, the predicted document |
| `Structure`, `EligibleTexts`, `TreeNames`, `Uniqueness`, `CandidateLaws` | what locks a paragraph, which texts are tried and what makes a candidate safe, told by element names and by occurrences |
| `Spelling`, `TileOverlap`, `SafeTargets`, `SafeOverlap` | several targets of one document: how a text is written out in bytes, where a query that repeats itself is found, and when two targets overlap |
| `Engine`, `Paging`, `PagingOrigins`, `Packages`, `PackageLaws`, `Probe`, `ProbeLaws`, `Verdict` | replies, paging and where a reported occurrence comes from, package comparison, refusals, `run_one` |
| `VerdictLaws`, `SessionLaws`, `VerdictMeaning`, `StageLaws` | exactly when a run ends how and under which stage, what one failing session does, what the verdicts mean |
| `SampleDocs`, `RunExamples`, `OverlapExample` | concrete documents, concrete runs, and a run of two targets that overlap |
| `ResultsLog` | the shared results file: interleaved workers, resuming |
| `Corpus`, `CorpusVerify`, `ArchiveLaws`, `ArchiveRuns`, `CorpusLaws` | the write-once archive: freezing and verifying, when a freeze goes through, what it records and what each problem says |
| `Passages`, `PassageLaws`, `VisibleText` | passages for the review handoff; the text that is left once tracked deletions are taken out |
| `TypedView`, `TypedViewLaws`, `Fingerprints` | the two readers of a typed view and the two comparisons |

A document is a `Forest`: each constructor holds the first of a list of siblings and the `rest`. `Print` turns it into bytes,
so a statement about `Print(f)` for every well-formed `f` is a statement about every document of that shape, with any
prefixes, attributes, white space, comments, CDATA sections and processing instructions (XML 1.0, Fifth Edition, sections
2.5, 2.6, 2.7 and 3.1). Libraries the scripts lean on are arbitrary functions: the XML parser's tree and callbacks, case
folding, ZIP, JSON and the hash. Where a result needs one of them to be truthful (`Truthful`, `CollisionFree`, `Reads`), the
lemma says so. The leaves of the model - names, codes, fields, tests of one item - each have a law that tells them without
calling them, by element names, character codes, occurrences or the fields of the engine's replies. `Verdict.Outcome` says how the run on one document ends, as a function of the tools, the manifest entry and
everything the engine answers and writes; `Verdict.RunOne` computes it and the laws are about it.

## Where the code does less than its documentation says

Each of these comes with a failing input or run, and with the exact condition under which the code is right.

- Paragraph ends are paired first opened, first closed, although the comment relies on nesting order. They are right exactly
  when no `p` nests in a located `p`, none closes before `body`, and behind `<body/>` none follows a `p` that was opened
  before it (`Locating.LocateDocument`, `LocatorTables.NestedParagraphFails`).
- Closing a nested table forgets the outer one. Table numbers are right exactly when no paragraph follows a nested table in
  its table (`LocatorTables.LocateTables`, `LocatorTables.NestedTableFails`).
- The scan drops tags whose names are not ASCII, and any closing tag of a `body` ends the pass. The direct entries are the
  `p` children of `body` exactly when every such child has an ASCII name, none shows through elements without one, and none
  follows a further `body` (`LocatorDirects.DirectsAreChildren`, `LocatorDirects.HiddenElementFails`,
  `LocatorDirects.NestedBodyFails`). After `<body/>` the pass takes what follows for the content of `body`, which is harmless
  exactly when no `p` shows there (`LocatorDirects.DirectsAfterEmptyBody`, `LocatorDirects.EmptyBodyFails`). The count that
  `select_target` compares can agree all the same (`LocatorDirects.EqualCountsMislead`).
- A `w:t` range starts after the first `>`. Pairing is right exactly when no `w:t` tag holds an earlier `>` and none nests
  (`TextPairing.PairingExact`, `TextPairing.NestedTextFails`, `TextPairing.AngleInTagFails`).
- A count of one is a count without overlap: a query that repeats itself can also stand elsewhere, overlapping its own tile
  (`Sequences.CountOne`). Two targets of one run then overlap exactly when they stand in one `w:t`, one tile directly after
  the other, and the later query is found further before its tile than the earlier one before its own; only then can the
  order of the edits matter (`SafeOverlap.OverlapExactly`, `SafeOverlap.EditsCommute`, `OverlapExample.TargetsOverlap`).
- Paging stops after ten pages, so a second handle behind 2000 blocks is not seen; and a total that changes between pages
  ends the loop but still reports a single hit. The report is right exactly when the blocks that were not read list no new
  handle (`Paging.ReportRight`, `Paging.HonestReportRight`, `Paging.ChangedTotalRight`, `Paging.SecondHandleMissed`,
  `Paging.ChangedTotalStillSingle`).
- `run_one` promises to raise nothing but the drift of the archive. Four kinds of exception escape it as well: JSON that is
  read as an object and is none, a package without `word/document.xml`, a member that cannot be unpacked, and a probe reply
  that is no single successful match. `VerdictLaws.EndsExactly` says exactly when each happens, and `RunExamples` has a run
  for each and one that stops at a late drift.
- The verification compares with `edit.docx` as the engine left it. A PASS means the predicted package exactly when the
  engine kept the other members of that file (`VerdictMeaning.PassExactlyWhenInputKept`, `RunExamples.TouchedInputPasses`).
- A process stopped while it rewrites the results file loses the rows still to be written, settled or not
  (`ResultsLog.StoppedWhileWriting`, `ResultsLog.SettledRowLost`).
- A manifest named like the private record can never be frozen (`ArchiveLaws.SharedNameRefuses`), and an original at the
  temporary path of an entry archived up to its own turn is refused. `ArchiveRuns.GoesThroughExactly` says exactly which
  freezes go through.
- A source path is checked with POSIX rules and joined with the host's. It stays below the manifest's directory exactly when
  no piece of it replaces the directory or climbs between the host's own separators: always on a POSIX host, not on Windows
  (`CorpusVerify.SourcesStayBelow`, `CorpusVerify.WindowsSourcesEscape`).
- The index reported with a passage counts all paragraphs when it looks at texts and only children of `body` when it looks at
  leaves. The two name the same paragraph exactly when no table, text box or content control comes before. Three passages
  can be reported whose indices all name another paragraph (`Passages.IndexNamesParagraph`, `Passages.IndexRight`,
  `Passages.TableShiftsIndex`, `Passages.SpacedLeafPicksElsewhere`).
- Text is collected from every paragraph, nested ones included: a text box's text is shown twice, and a paragraph inside a
  deletion is shown although it is deleted (`VisibleText.VisibleIsFinalView` and the two lemmas after it).
- The two readers of a typed view differ exactly on markers with an empty id (`TypedView.ReadersAgree`,
  `TypedView.EmptyIdReadApart`), and the fingerprint comparison does not see a family that is empty on one side and absent on
  the other (`Fingerprints.NoDriftMeansEqual`, `Fingerprints.EmptyFamilyUnnoticed`).

## Model

| member | source | states |
|---|---|---|
| Sequences.CountOne | qualification/real_docx_scan.py:652-658 | a non-overlapping count is one if and only if there is an occurrence and every occurrence starts inside the leftmost one |
| Sequences.CountOneUnique | qualification/real_docx_scan.py:652-658 | for a pattern that overlaps no shift of itself, count one is exactly one occurrence |
| Scanner.ScanTags | qualification/real_docx_scan.py:301-367 | the outer loop yields the whole tag stream of `Scan` and terminates on every byte string |
| Scanner.ScanOne | qualification/real_docx_scan.py:308-366 | one turn: past a comment, CDATA section or processing instruction, one tag, or the end |
| Scanner.FindTagEnd | qualification/real_docx_scan.py:331-345 | the cursor loop finds the first `>` outside quotes, or none |
| Scanner.Next | qualification/real_docx_scan.py:308-366 | every turn that does not stop moves the position strictly forward and stays inside the member |
| Scanner.ScanOrdered | qualification/real_docx_scan.py:301-367 | on every byte string the tags lie one after the other, each from a `<` to just past a `>` |
| ScannerLaws.StopsExactly | qualification/real_docx_scan.py:308-345 | on any bytes the scan stops if and only if no `<` is left, or the next one opens a comment, section or instruction that is not closed, or a tag without a `>` outside quotes |
| ScannerLaws.NameEndsAtWhite | qualification/real_docx_scan.py:346-357 | of the ASCII characters just the six white ones end a name |
| ScannerLaws.WhiteInFront | qualification/real_docx_scan.py:346-357 | white space before the name does not matter |
| ScannerLaws.NoElement | qualification/real_docx_scan.py:346-357 | a declaration is no tag, and a closing tag is never self-closing |
| Markup.ScanUndoesPrint | qualification/real_docx_scan.py:301-367 | for every well-formed tree the scan of its print is exactly its open, close and self-closing tags in document order with their byte spans |
| ScanStability.ScanStable | qualification/real_docx_scan.py:301-367 | on any bytes, replacing eight or more query bytes by equally many keeps every tag's kind and span, and the name of every tag the stretch does not touch |
| Locator.LocateParagraphs | qualification/real_docx_scan.py:508-589 | the single pass with its stack, counters and open tables, then the pairing of ends, computes `Locate` of the scan |
| LocatorTrees.RunIsWalk | qualification/real_docx_scan.py:523-573 | inside `body` the stack machine does what a recursion over the seen elements does, up to the next closing tag of a `body`, and otherwise ends with the stack it began with, so the stack is the ancestor path |
| LocatorTrees.RunDocument | qualification/real_docx_scan.py:523-573 | on every tag stream of a tree the pass works on the content of the first `body` up to the next closing tag of a `body`, or on what follows `<body/>`, and locates nothing else |
| LocatorResults.OrdersAgree | qualification/real_docx_scan.py:574-588 | the ends in opening order are the first closing tags if and only if no `p` with a closing tag stands inside a located one |
| Locating.LocateDocument | qualification/real_docx_scan.py:508-589 | for every well-formed document: the entries are exactly the `p` elements the pass works on, the direct ones are `P0`, `P1`, ... at exactly the outermost of these, and all ends are right if and only if none of them has a closing tag, or none nests in a located one, none closes before `body`, and behind `<body/>` none follows a `p` opened before it |
| Locating.FlatInBody | qualification/real_docx_scan.py:574-588 | when the first `body` has both tags, that test looks at its content only: no `p` nests in a located one |
| LocatorDirects.DirectsAreChildren | qualification/real_docx_scan.py:539-548 | the direct entries are the `p` children of `body` in the tree if and only if all of these have ASCII names, none shows through elements without one, and none follows a further `body` |
| LocatorDirects.HiddenElementFails | qualification/real_docx_scan.py:353-357 | a `p` inside an element with an accented name is taken for a child of `body` |
| LocatorDirects.NestedBodyFails | qualification/real_docx_scan.py:524-532 | a `p` child behind a nested `body` is not located |
| LocatorDirects.DirectsAfterEmptyBody | qualification/real_docx_scan.py:533-548 | when the first `body` is self-closing, the direct entries say rightly that it has no children if and only if no `p` shows behind it before a `body` closes |
| LocatorDirects.EmptyBodyFails | qualification/real_docx_scan.py:533-537 | behind `<body/>` a `p` outside is taken for a child |
| LocatorDirects.EqualCountsMislead | qualification/real_docx_scan.py:613-615 | the counts of scanned and parsed paragraphs agree although they are different elements |
| LocatorTables.LocateTables | qualification/real_docx_scan.py:539-564 | for every well-formed document every table number is that of the table child of `body` around the paragraph, if and only if no paragraph follows a nested table there |
| LocatorTables.NestedParagraphFails | qualification/real_docx_scan.py:574-588 | a paragraph nested in another gets a wrong end |
| LocatorTables.NestedTableFails | qualification/real_docx_scan.py:529-530 | after a nested table a paragraph has lost its table number |
| LocatorTables.EqualCountsAgree | qualification/real_docx_scan.py:613-620 | of the `p` children of `body`, as many bound ones as there are at all already means that the k-th of one is the k-th of the other |
| LocatorControls.LocateControls | qualification/real_docx_scan.py:533-572 | for every well-formed document a child of `body` is marked as one, and any other located paragraph carries the number of the innermost content control around it, in the order in which controls open |
| CandidateLaws.LocatesExactly | qualification/real_docx_scan.py:574-588 | on any tag stream the locator refuses if and only if it has not as many opening as closing tags of paragraphs |
| CandidateLaws.AnyTagClosesControl | qualification/real_docx_scan.py:523-532 | a closing tag of whatever name takes a content control off the stack |
| TextRanges.WtRanges | qualification/real_docx_scan.py:377-424 | the callbacks push and pop as `RangesOf` says; the result is refused on an error, a wrong count or an open element |
| TextPairing.PairingExact | qualification/real_docx_scan.py:377-424 | the i-th recorded range is the i-th element's own range for all i if and only if no `w:t` nests in one and no `w:t` tag holds an early `>` |
| TextPairing.RangesOfDocument | qualification/real_docx_scan.py:601-610 | then each range is exactly the printed content of its element, follows a `>`, and the ranges are increasing and disjoint, self-closing elements included |
| TextPairing.NestedTextFails | qualification/real_docx_scan.py:408-416 | a `w:t` in a `w:t`: the ranges are paired wrongly |
| TextPairing.AngleInTagFails | qualification/real_docx_scan.py:398-399 | a `>` in an attribute: the range starts inside the tag |
| CandidateLaws.RangesExactly | qualification/real_docx_scan.py:377-424 | ranges are refused exactly on a parse error, a start without its `>`, a wrong number of them, or an element left open |
| Queries.ReplacementDiffers | qualification/real_docx_scan.py:467-480 | for every non-empty string exactly one character changes |
| Queries.ReplacementExactly | qualification/real_docx_scan.py:467-480 | which character changes and to what, by code: the first ASCII digit or letter to the one that follows it, else the last character to U+4E4B or U+7684 |
| Queries.QueryByCode | qualification/real_docx_scan.py:69-69 | the alphabet and the length of a query, by code |
| Queries.ReplacementKeepsLength | qualification/real_docx_scan.py:476-480 | the length assertion holds if and only if some character is an ASCII letter or digit or the last one takes three bytes |
| Queries.ReplacementOfQuery | qualification/real_docx_scan.py:660-662 | the replacement of a query is a different query whose bytes may stand for the query's bytes in any scan, so both assertions hold |
| Queries.TilesShape | qualification/real_docx_scan.py:483-490 | the matches of the pattern are ordered, disjoint, 8 to 24 characters long and made of query characters |
| Queries.TilesByRun | qualification/real_docx_scan.py:69-69 | a maximal run of n query characters yields n div 24 tiles and one more when n mod 24 is at least 8 |
| Queries.TilesCover | qualification/real_docx_scan.py:486-486 | eight query characters in a row always meet a match |
| Queries.ShortcutAgrees | qualification/real_docx_scan.py:484-485 | the full-match shortcut gives what the general scan gives |
| Queries.CandidatesAreTiles | qualification/real_docx_scan.py:483-490 | every candidate is a query and the text of its tile; the cut to 24 never applies |
| Target.TryQuery | qualification/real_docx_scan.py:638-676 | a target is returned if and only if the candidate passes the tests of `Safe`, which `Uniqueness.SafeExactly` tells in occurrences, and it is built from that candidate |
| Uniqueness.SafeExactly | qualification/real_docx_scan.py:638-658 | a candidate is safe if and only if, folded, its query is once in the folded text of one `w:t` and of no other, once in that of one paragraph and of no other, and in none of the other texts; and its bytes are once in the member and once in its range |
| Uniqueness.FoldedOnce | qualification/real_docx_scan.py:642-648 | a folded count of one over all texts means one text has it once and no other has it at all |
| Target.TryText | qualification/real_docx_scan.py:638-641 | the first safe candidate of one `w:t`, or none |
| Target.TryParagraph | qualification/real_docx_scan.py:616-637 | the first safe candidate of one paragraph's eligible texts, none for a locked paragraph |
| Target.SelectTarget | qualification/real_docx_scan.py:592-677 | the refusals in their order, and otherwise the target of the first safe candidate in document order; what is safe is `Uniqueness.SelectedIsUnique` |
| Uniqueness.SelectedIsUnique | qualification/real_docx_scan.py:592-677 | for every document and library: the target comes from the first candidate that is unique in these terms among the folded texts of the parsed document, and when the refusal is that there is no safe target, none is |
| SafeTargets.SelectedAtHome | qualification/real_docx_scan.py:642-658 | with character-wise folding the one text that has the folded query is the target's own `w:t` |
| CandidateLaws.TriedExactly | qualification/real_docx_scan.py:616-641 | the candidates tried are exactly the queries of the eligible texts of paragraphs that no element locks by its name |
| CandidateLaws.RefusedExactly | qualification/real_docx_scan.py:592-615 | each refusal before the candidates has its exact condition |
| EligibleTexts.TriedAreEligible | qualification/real_docx_scan.py:455-464 | the texts tried in a paragraph are exactly those right in a run whose ancestors are runs and hyperlinks and whose bound children are its properties and known inline items |
| TreeNames.ParagraphsByName | qualification/real_docx_scan.py:434-442 | the paragraphs are those right in the first `body`, found by name |
| TreeNames.TextsByName | qualification/real_docx_scan.py:430-431 | the texts are those of all `t` elements of the namespace in document order |
| Structure.FlagsByName | qualification/real_docx_scan.py:445-452 | the flags of a paragraph, by the names of the elements below it |
| Target.FirstSafeIs | qualification/real_docx_scan.py:616-676 | the chosen candidate is safe and none tried before it is; with none chosen, none is safe |
| TargetOrder.CandidatesInOrder | qualification/real_docx_scan.py:616-638 | for every tree the candidates are tried by paragraph and by `w:t` in document order, which makes the selected query the first safe one of the document |
| Target.ParagraphsIndexed | qualification/real_docx_scan.py:610-610 | the index a candidate carries is that of its element among all `w:t` elements of the document |
| TargetFacts.SelectionIsGood | qualification/real_docx_scan.py:638-663 | whatever the libraries report: the query stands inside its range, starts at its leftmost occurrence in the whole member, every other occurrence overlaps that one, and the expected document replaces exactly those bytes by equally many different ones |
| TargetFacts.GoodTargetUnique | qualification/real_docx_scan.py:652-658 | without self-overlap the query occurs nowhere else in the member |
| TargetFacts.ExpectedDocument | qualification/real_docx_scan.py:659-663 | the expected document has the source's length, differs only inside the query, gives the source back when the query is put back, and scans to the same tags at the same spans |
| LeafEdits.RewritePrint | qualification/real_docx_scan.py:659-663 | overwriting query bytes in texts, comments, CDATA sections and instructions keeps them well formed, of the same kinds and lengths, and overwrites exactly those bytes of the print |
| PredictedEdit.PredictedIsTextEdit | qualification/real_docx_scan.py:659-663 | when the chosen `w:t` has no child elements: the expected document is the print of the same tree with only the leaves of that `w:t` changed at the query, with the same tags, located paragraphs and ranges |
| PredictedEdit.ExpectedKeepsTags | qualification/real_docx_scan.py:659-663 | whatever the chosen `w:t` holds besides child elements, the expected document scans to the very same tags, names included |
| PredictedEdit.TargetInItsParagraph | qualification/real_docx_scan.py:613-620 | the target's `P{k}` is the k-th `p` child of `body` in bytes and in the tree, and the replaced bytes lie inside that element |
| SafeTargets.FindSafeTargets | qualification/real_workflow_word_handoff.py:372-401 | each target is the oracle's selection with the earlier queries excluded; the repeated-query ending never happens |
| SafeTargets.QueriesApart | qualification/real_workflow_word_handoff.py:377-400 | queries are pairwise distinct, and no later one stands inside an earlier one |
| SafeTargets.PlacesApart | qualification/real_workflow_word_handoff.py:372-401 | without self-overlap the byte ranges of two targets of one run are disjoint, provided the tiles of the first one's `w:t` are written out in it |
| Spelling.TilesAround | qualification/real_docx_scan.py:483-490 | the tiles around a stretch of other characters are those of the two sides |
| Spelling.EdgeFrom | qualification/real_docx_scan.py:483-490 | every tile starts the text, follows a character outside the alphabet, or follows another tile at once |
| Spelling.PlainIsSpelled | qualification/real_workflow_word_handoff.py:372-401 | a text written in plain UTF-8 is spelled out: its tiles stand in the bytes, and what stands before a stretch of them is no query character |
| Spelling.JoinSpelled | qualification/real_workflow_word_handoff.py:372-401 | so are two such texts with anything between them that reads as other characters and ends in one: references, comments, section boundaries |
| Spelling.ReferenceIsLegible | qualification/real_workflow_word_handoff.py:372-401 | in particular with a reference such as `&amp;` between two stretches |
| SafeTargets.OrderIrrelevant | qualification/real_workflow_word_handoff.py:372-401 | disjoint edits give the same bytes in any order |
| SafeTargets.TargetsCommute | qualification/real_workflow_word_handoff.py:372-401 | so the replacements of one run may be made in any order, when this holds of every `w:t` with a target |
| SafeTargets.ChosenOnce | qualification/real_workflow_word_handoff.py:372-401 | what a run of several targets finds is determined: two runs agree as far as both go |
| TileOverlap.PlaceOfShift | qualification/real_docx_scan.py:652-658 | of a text that is spelled out: the one place of a tile's characters lies before the tile by exactly as many characters as they repeat before it |
| TileOverlap.NoShift | qualification/real_docx_scan.py:652-658 | a query that overlaps no shift of itself is found at its own tile |
| TileOverlap.OverlapInText | qualification/real_docx_scan.py:652-658 | the places of two tiles overlap if and only if the second starts where the first ends and is found further before its tile |
| SafeOverlap.OverlapExactly | qualification/real_workflow_word_handoff.py:372-401 | for every document whose first target's `w:t` is spelled out, whatever the queries: two targets of one run overlap if and only if they stand in one `w:t`, one tile directly after the other, and the later query repeats further before its tile |
| SafeOverlap.EditsDisjointExactly | qualification/real_workflow_word_handoff.py:372-401 | all edits of a run are disjoint if and only if no two targets are such a pair |
| SafeOverlap.EditsCommute | qualification/real_workflow_word_handoff.py:372-401 | and then they give the same bytes in any order |
| OverlapExample.PeriodicQueriesOverlap | qualification/real_docx_scan.py:652-658 | a text whose two tiles each count one, though the second query stands inside the first |
| OverlapExample.TargetsOverlap | qualification/real_workflow_word_handoff.py:372-401 | a document with that text in its one `w:t`: the two targets of the run lie at [0, 24) and [22, 30) of it, and what the edits leave depends on their order |
| Engine.McpSession | qualification/real_docx_scan.py:237-262 | one envelope per call; the k-th is the object of the k-th line that is no noise, or reports a broken or an `ERR` line, or a missing reply; none at all if and only if some `OK` line is JSON without an object |
| Engine.LinesDecide | qualification/real_docx_scan.py:246-274 | on the lines themselves: the gate passes if and only if the first lines that are no noise, one per call, are there and hold objects without a transport error, and the envelopes are then exactly these; and exactly when it raises |
| Engine.NoiseIsNothing | qualification/real_docx_scan.py:246-258 | noise lines change nothing |
| Engine.MissingIsError | qualification/real_docx_scan.py:246-274 | a session passes the transport gate if and only if there are enough replies and each of the first ones is an object without a transport error |
| Engine.NeedMeans | qualification/real_docx_scan.py:918-924 | what the gate finds on any list of replies |
| Paging.HarvestPage | qualification/real_docx_scan.py:1146-1173 | one page's occurrences are added in order, a known handle is not added again; none exactly when reading an entry raises |
| Paging.CollectSingle | qualification/real_docx_scan.py:1130-1215 | the page loop computes `Collecting`, within ten pages: the hits, the pages and whether a page was lost or raised |
| Paging.HarvestKeepsEach | qualification/real_docx_scan.py:1146-1173 | whatever pages repeat, every handle is kept once and none is lost |
| PagingOrigins.KeptAsListed | qualification/real_docx_scan.py:1146-1173 | what paging keeps is, of all the pages it read, the first occurrence with each handle, as the engine listed it |
| PagingOrigins.ReportedAsListed | qualification/real_docx_scan.py:1146-1215 | when one occurrence is reported, its handle, verdict, code and paragraph are those of an occurrence the engine listed on a page that was read |
| PagingOrigins.OtherwiseNothing | qualification/real_docx_scan.py:1203-1215 | with any other number of occurrences none is called editable and no handle is reported |
| PagingOrigins.RaisesExactly | qualification/real_docx_scan.py:1146-1173 | reading raises exactly on an entry that is no object, or on a new one whose verdict is none |
| PagingOrigins.AsksExactly | qualification/real_docx_scan.py:1174-1213 | which page is asked for behind the first one, and that another total ends paging unread |
| PagingOrigins.TalliesExactly | qualification/real_workflow_word_handoff.py:805-863 | on a single page the second loop counts all occurrences and remembers the first as it is listed |
| PagingOrigins.TallyRaisesExactly | qualification/real_workflow_word_handoff.py:805-863 | and raises exactly on an entry that is no object, or when the very first one has a verdict that is none |
| Paging.ReportRight | qualification/real_docx_scan.py:1130-1215 | against any server that pages a fixed list without gaps, however the loop ends: every handle of the blocks read is harvested once, and the reported count is right if and only if the other blocks list nothing new |
| Paging.CompletePagingExact | qualification/real_docx_scan.py:1130-1215 | so once paging completes every handle of the list has been harvested once, and one is reported exactly when there is one |
| Paging.OnlyRequestsMatter | qualification/real_docx_scan.py:1185-1213 | paging depends on the replies to its own requests and on nothing else |
| Paging.CollectExact | qualification/real_docx_scan.py:1130-1215 | against a server with full pages the report is that of the first 2000 blocks |
| Paging.HonestReportRight | qualification/real_docx_scan.py:1185-1185 | so it is right if and only if these list every handle, as they do whenever there are no more blocks |
| Paging.SecondHandleMissed | qualification/real_docx_scan.py:1185-1185 | with 2001 blocks a second handle is missed and one occurrence is reported |
| Paging.ChangedTotalStillSingle | qualification/real_docx_scan.py:1202-1213 | after a changed total one hit is still reported as the only one |
| Paging.ChangedTotalRight | qualification/real_docx_scan.py:1202-1213 | after a changed total the hits of the first page are reported, which is right if and only if the blocks behind that page list nothing new |
| Paging.FindExactOne | qualification/real_workflow_word_handoff.py:805-863 | the second page loop computes `ExactOne`: it counts every occurrence, remembers the first, and is lost or raises where the source does |
| Paging.LoopsAgree | qualification/real_workflow_word_handoff.py:805-863 | against any server whose pages say whether they are the last, with fitting cursors and an unchanged total, no reply lost and different named hits, both loops report the same count and handle |
| Paging.HonestLoopsAgree | qualification/real_workflow_word_handoff.py:805-863 | in particular against a server with full pages |
| Packages.ExactMeans | qualification/real_docx_scan.py:784-810 | the verdict is exact if and only if the edited package is the compared one with `word/document.xml` replaced by the expected document |
| PackageLaws.VerdictExactly | qualification/real_docx_scan.py:784-810 | each reason for refusing an edited package has its exact condition on the members |
| Packages.CleanMeans | qualification/real_docx_scan.py:846-853 | the two snapshots are clean if and only if every file kept its bytes and every new one is a sidecar |
| PackageLaws.SidecarByComponent | qualification/real_docx_scan.py:846-853 | a sidecar is what has a path component that ends in `.docx2typed` |
| Probe.SelectUnsupported | qualification/real_docx_scan.py:680-732 | the two loops compute `ProbeOf`, the first probe in document order |
| Probe.ProbeOfIs | qualification/real_docx_scan.py:680-732 | a probe is a uniquely placed text of a locked paragraph, named by its located entry; without one, no text of any locked paragraph passes the tests |
| ProbeLaws.ProbeIsNarrow | qualification/real_docx_scan.py:700-731 | a probe is the start, of 32 characters at most, of a stripped text of a paragraph that an element locks by its name; folded it is in one text only, and its bytes are once in the member and once in its range |
| ProbeLaws.ProbableExactly | qualification/real_docx_scan.py:705-725 | the tests of a probe, in occurrences |
| Probe.TryProbe | qualification/real_docx_scan.py:705-731 | one text is a probe if and only if it passes the tests |
| Probe.ProbeAtIs | qualification/real_docx_scan.py:705-731 | its place lies inside its range and is the only one counted in the member |
| Probe.ParagraphNumberOfName | qualification/real_docx_scan.py:1262-1263 | reading the number of `P{k}` gives k back, so different paragraphs have different names |
| ProbeLaws.NameIs | qualification/real_docx_scan.py:1262-1263 | a name is `P` and a number without a zero in front |
| ProbeLaws.NumberExactly | qualification/real_docx_scan.py:1262-1263 | which strings are names of paragraphs, and of which |
| Structure.RefusalByName | qualification/real_docx_scan.py:737-766 | a refusal is justified if and only if it names the probe's paragraph and an element with one of the names that its code needs stands below it |
| Structure.CodeByName | qualification/real_docx_scan.py:737-757 | code by code: what has to stand below a paragraph; any other code is never borne out |
| Verdict.PristineLifecycle | qualification/real_docx_scan.py:951-995 | ends or goes on as `PristineStage` defines: session, gate, save, reopen, both packages, equal members |
| VerdictLaws.PristineEnds | qualification/real_docx_scan.py:951-995 | it goes on if and only if open, save and reopen succeeded and both packages were read with the same members, and each of its ends has its exact condition |
| Verdict.ClassifyOpenFailure | qualification/real_docx_scan.py:1218-1277 | the end that `OpenFailure` defines; EXPECTED_REJECT needs a named, mapped paragraph whose flags justify the code, and nothing written |
| VerdictLaws.OpenFailureEnds | qualification/real_docx_scan.py:1218-1277 | EXPECTED_REJECT, a missing document and a damaged member each exactly under its condition, INCOMPLETE otherwise |
| Verdict.UnsupportedOrNa | qualification/real_docx_scan.py:1280-1338 | the end that `ProbeRun` defines for the first probe of the document; which refusals count is `Structure.RefusalByName` |
| VerdictLaws.ProbeEnds | qualification/real_docx_scan.py:1280-1338 | EXPECTED_REJECT exactly for a justified, write-free refusal, CONTRACT_FAILURE exactly for a probe that wrote, and the unassigned paragraph escapes exactly when the reply is no single successful match |
| Verdict.FindTarget | qualification/real_docx_scan.py:1018-1057 | ends or goes on as `FindStage` defines |
| VerdictLaws.FindEnds | qualification/real_docx_scan.py:1018-1057 | it goes on if and only if the find shows one editable occurrence in the mapped paragraph, and each of its ends has its exact condition |
| Verdict.EditSaveVerify | qualification/real_docx_scan.py:1058-1110 | the end that `SaveRun` defines |
| VerdictLaws.SaveEnds | qualification/real_docx_scan.py:1058-1110 | PASS if and only if edit, save, reopen and verification all went through and the archive is unchanged; the late drift and every other end exactly under its condition |
| Verdict.RunOne | qualification/real_docx_scan.py:888-1127 | for every engine the run ends as `Outcome` says |
| VerdictLaws.EndsExactly | qualification/real_docx_scan.py:888-1127 | for every engine: the four categories, the stop on a drifted archive and each of four exceptions come if and only if their conditions hold, which speak of the engine's answers and files alone; INCOMPLETE is all the rest and exactly a null category |
| SessionLaws.FailureForcesIncomplete | qualification/real_docx_scan.py:909-925 | every session the run holds: a timeout, a missing reply or a transport error in it forces INCOMPLETE, so a category means that all of them were answered; a reply that is no object ends the run without a row |
| SessionLaws.ErrorLineForcesIncomplete | qualification/real_docx_scan.py:246-262 | in any session the run holds, an `ERR` line, an `OK` line that is no JSON or a missing line forces INCOMPLETE, unless an `OK` line without an object comes in it or a reply that is no object comes before |
| SessionLaws.CategoryMeansSound | qualification/real_docx_scan.py:909-925 | a category means that every session printed one clean line per call |
| SessionLaws.PageByLines | qualification/real_docx_scan.py:1185-1205 | a page is what the second line of a sound session holds |
| SessionLaws.OnlyReachedMatter | qualification/real_docx_scan.py:888-1338 | the run holds no other session: engines that agree on these and on the files bring the same end |
| VerdictMeaning.PassMeans | qualification/real_docx_scan.py:7-11 | PASS against any engine that keeps its inputs: the pristine output has the source's members, and the edited package is the source with exactly the query's bytes replaced at its leftmost place |
| VerdictMeaning.PassKeepsTags | qualification/real_docx_scan.py:7-11 | and the edited document scans to the same tags at the same spans |
| VerdictMeaning.EditableWhereMapped | qualification/real_docx_scan.py:1038-1058 | a run goes on to the edit only when the engine itself listed an editable occurrence in the paragraph the source maps the target to, and edits that handle |
| VerdictMeaning.PassWasEditable | qualification/real_docx_scan.py:1038-1058 | in particular no PASS without it |
| VerdictMeaning.FoundExactly | qualification/real_docx_scan.py:1040-1057 | what the find has to show, exactly |
| VerdictMeaning.MissingIsIncomplete | qualification/real_docx_scan.py:983-995 | a package that is missing when it is to be read leaves the run without a category |
| VerdictMeaning.MissingEditIsIncomplete | qualification/real_docx_scan.py:1085-1096 | and so does one that is missing after the edit |
| StageLaws.EarlyStages | qualification/real_docx_scan.py:926-950 | the stage of every end before the first session |
| StageLaws.PristineStages | qualification/real_docx_scan.py:951-995 | the stage of every end of the pristine lifecycle |
| StageLaws.OpenStages | qualification/real_docx_scan.py:1218-1277 | the stage of every end of a refused open |
| StageLaws.ProbeStages | qualification/real_docx_scan.py:1280-1338 | the stage of every end without a safe target |
| StageLaws.FindStages | qualification/real_docx_scan.py:1018-1057 | the stage of every end of the find |
| StageLaws.SaveStages | qualification/real_docx_scan.py:1058-1085 | the stage of every end of the edit |
| StageLaws.VerifyStages | qualification/real_docx_scan.py:1085-1110 | the stage of every end of the verification |
| RunExamples.PassHappens | qualification/real_docx_scan.py:888-1110 | there is a document and an engine that keeps its inputs for which the run passes |
| RunExamples.TouchedInputPasses | qualification/real_docx_scan.py:1091-1106 | there is a run that passes although the edited package is not the predicted one |
| RunExamples.LateDriftHappens | qualification/real_docx_scan.py:1107-1108 | there is a run that stops the scan at its end |
| RunExamples.NoObjectHappens | qualification/real_docx_scan.py:246-249 | one line `OK []` ends the run without a row |
| RunExamples.MissingMemberHappens | qualification/real_docx_scan.py:998-1000 | so does a document without its main member |
| RunExamples.DamagedMemberHappens | qualification/real_docx_scan.py:983-983 | so does a member that cannot be unpacked |
| RunExamples.UnboundHappens | qualification/real_docx_scan.py:1312-1323 | so does a probe answered with no match |
| VerdictMeaning.PassExactlyWhenInputKept | qualification/real_docx_scan.py:1091-1096 | without that assumption: the edited package is the source with the expected document if and only if the engine left the other members of `edit.docx` alone |
| VerdictMeaning.ProbeRejectMeans | qualification/real_docx_scan.py:12-15 | EXPECTED_REJECT from the probe: the document that was staged has no safe target, and the engine refused in the mapped paragraph, with a code that an element below it bears out by its name, writing nothing but sidecars |
| VerdictMeaning.ProbeReplyExactly | qualification/real_docx_scan.py:1300-1325 | what the reply to the probe comes to, field by field: when reading it raises, when it leaves the paragraph unassigned, when it refuses |
| VerdictMeaning.NotApplicableMeans | qualification/real_docx_scan.py:1286-1289 | NOT_APPLICABLE: the document that was staged has neither a safe target nor a text to probe |
| VerdictMeaning.OpenRejectMeans | qualification/real_docx_scan.py:1218-1277 | EXPECTED_REJECT at open: an element below the named paragraph bears the code out by its name, the staged copy is untouched, no output appeared, only sidecars are new |
| VerdictMeaning.ProvesExactly | qualification/real_docx_scan.py:1255-1272 | a diagnostic is borne out if and only if the document parses, the scan and the tree count the same direct paragraphs, the name is the number of one of them, and an element below it has a name that the code needs |
| ResultsLog.ResultsFile.LoadRows | qualification/real_docx_scan.py:867-881 | the loaded dictionary in file order, later records winning, unusable lines skipped |
| ResultsLog.ResultsFile.Store | qualification/real_docx_scan.py:1454-1459 | one pass of the locked section sets the one row in the stored table and nothing else |
| ResultsLog.LoadOfEntries | qualification/real_docx_scan.py:867-881 | what is written for a dictionary reads back as that dictionary |
| ResultsLog.PutExactly | qualification/real_docx_scan.py:1455-1456 | assigning a row updates it in place or adds it at the end |
| ResultsLog.EveryInterleaving | qualification/real_docx_scan.py:1451-1467 | for every interleaving of any number of workers, when nobody holds the lock the file is what the finished records leave one after the other, and its table is the old one overridden by exactly those records |
| ResultsLog.NothingLost | qualification/real_docx_scan.py:1451-1467 | every finished call's row is in the file and no other document's row has changed |
| ResultsLog.TodoExactly | qualification/real_docx_scan.py:1433-1436 | a resumed run works on exactly the documents without a row that is complete and has one of the four categories |
| ResultsLog.ReturnedAgain | qualification/real_docx_scan.py:1433-1436 | a row that `run_one` returned is worked on again if and only if it has no category |
| ResultsLog.SettledRowsStay | qualification/real_docx_scan.py:1433-1436 | a resumed run leaves every complete row with a category as it was |
| ResultsLog.NextResume | qualification/real_docx_scan.py:1433-1436 | a further resume works on exactly the documents whose new row is not complete with a category |
| ResultsLog.StoppedWhileWriting | qualification/real_docx_scan.py:1457-1459 | a process stopped while rewriting leaves a prefix, and every row still to be written is gone |
| ResultsLog.SettledRowLost | qualification/real_docx_scan.py:1457-1459 | a run that loses a settled row this way |
| Corpus.IndexEntries | qualification/real_docx_corpus.py:222-231 | the table by hash, or the first entry without or with a repeated hash; the later count check can never fire |
| Corpus.Archive.PublishImmutable | qualification/real_docx_corpus.py:180-186 | writes a new file through a temporary one, accepts equal bytes, refuses different ones |
| Corpus.Archive.FreezeEntry | qualification/real_docx_corpus.py:239-281 | one entry's checks in their order, its copy, its document and its alias |
| Corpus.Archive.FreezeInventory | qualification/real_docx_corpus.py:201-325 | the files, the manifest and the refusal that `Freeze` defines |
| ArchiveLaws.WriteOnce | qualification/real_docx_corpus.py:239-325 | however a freeze ends, every earlier file keeps its bytes |
| ArchiveLaws.FreezeThenVerify | qualification/real_docx_corpus.py:412-462 | after a freeze that went through, verification finds no problem, with the count pinned or not |
| CorpusLaws.RecordsExactly | qualification/real_docx_corpus.py:282-325 | what a freeze that goes through has recorded, field by field: the manifest, and in the private record what each document was called and where it was |
| CorpusLaws.NamesAre | qualification/real_docx_corpus.py:239-325 | the names of the files in the archive |
| CorpusLaws.BelowPrecedes | qualification/real_docx_corpus.py:239-240 | the documents are in the order of their hashes, code by code |
| CorpusLaws.RefusedFor | qualification/real_docx_corpus.py:239-270 | why an entry is refused at its turn |
| ArchiveLaws.FreezeAgain | qualification/real_docx_corpus.py:201-325 | freezing the same inventory again goes through and changes nothing |
| ArchiveLaws.OrderDoesNotMatter | qualification/real_docx_corpus.py:222-240 | permuting the entries changes neither the archive nor the manifest, for every inventory; of one refused for its hashes only the reason given can differ |
| ArchiveRuns.IndexedExactly | qualification/real_docx_corpus.py:222-231 | the entries are indexed if and only if each has a hash and no two have the same |
| ArchiveRuns.RefusedInAnyOrder | qualification/real_docx_corpus.py:222-231 | an inventory with a missing or repeated hash is refused in every order of its entries, with nothing written |
| ArchiveRuns.CheckAtTurn | qualification/real_docx_corpus.py:239-281 | an entry passes its checks at its turn if and only if it is ready before the run, whatever was archived meanwhile |
| ArchiveRuns.GoesThroughExactly | qualification/real_docx_corpus.py:201-325 | a freeze goes through if and only if the count and the hashes are right, every entry is ready before the run, and nothing else stands under the names of the two records |
| ArchiveLaws.SharedNameRefuses | qualification/real_docx_corpus.py:313-324 | a manifest named like the private record always refuses |
| CorpusVerify.CheckDocuments | qualification/real_docx_corpus.py:370-399 | the structural problems, entry by entry in order |
| CorpusVerify.VerifyManifest | qualification/real_docx_corpus.py:412-462 | exactly the problems of `Problems`; none is returned for a missing manifest |
| CorpusVerify.NoProblemsMeansFaithful | qualification/real_docx_corpus.py:370-462 | no problem if and only if every entry's bytes, size, id, path and features match and ids and hashes are pairwise distinct |
| CorpusLaws.ListedExactly | qualification/real_docx_corpus.py:370-462 | each problem is listed if and only if it is there |
| CorpusLaws.VerifiedFields | qualification/real_docx_corpus.py:370-462 | what a verification without problems has read, field by field |
| CorpusLaws.ResolvesExactly | qualification/real_docx_corpus.py:356-367 | a source is refused if and only if it is empty, absolute or climbs, and otherwise descends from the directory |
| CorpusLaws.LeavesExactly | qualification/real_docx_corpus.py:356-367 | a piece leaves the directory at once, by its characters: never on POSIX, on Windows with a backslash in front, another drive, or a drive with a backslash |
| CorpusLaws.StepsExactly | qualification/real_docx_corpus.py:356-367 | and otherwise steps through what stands between the backslashes |
| CorpusVerify.SourcesStayBelow | qualification/real_docx_corpus.py:356-367 | on every host a source that is not refused lies below the manifest's directory if and only if no piece replaces the directory or climbs between the host's separators; always on POSIX, and on Windows without a backslash and a colon |
| CorpusVerify.PosixStaysBelow | qualification/real_docx_corpus.py:356-367 | on a POSIX host the resolved path steps down from the directory |
| CorpusVerify.WindowsSourcesEscape | qualification/real_docx_corpus.py:364-367 | two paths that pass the check and leave the directory on Windows |
| CorpusVerify.LocateSource | qualification/real_docx_corpus.py:356-367 | the path written for a hash resolves to the archived file |
| Passages.JoinedCount | qualification/real_workflow_review_handoff.py:337-355 | for a phrase without a line break the count in the joined text is the sum over the paragraphs |
| Passages.OneInJoined | qualification/real_workflow_review_handoff.py:337-355 | a joined count of one means one paragraph has it once and no other has it |
| Passages.LeafCandidate | qualification/real_workflow_review_handoff.py:320-331 | the windows of four and then three words that fit, each once, in order |
| Passages.CandidateFacts | qualification/real_workflow_review_handoff.py:320-331 | every candidate has 12 to 40 allowed characters and no line break |
| PassageLaws.CandidatesExactly | qualification/real_workflow_review_handoff.py:320-331 | the candidates of a leaf are exactly the stretches of three or four of its words, joined by spaces, of 12 to 40 allowed characters |
| PassageLaws.WordsExactly | qualification/real_workflow_review_handoff.py:320-331 | how a leaf is split into words |
| PassageLaws.JoinedBySpaces | qualification/real_workflow_review_handoff.py:320-331 | words are joined by one space each |
| PassageLaws.SuitableExactly | qualification/real_workflow_review_handoff.py:346-360 | a passage suits if and only if it is once in one paragraph and in no other, its bytes are once in the member, and neither it nor a picked one is part of the other |
| PassageLaws.PicksExactly | qualification/real_workflow_review_handoff.py:341-365 | a paragraph gives a pick if and only if fewer than three are there, it has 40 characters and some candidate of one of its leaves suits |
| Passages.PickTargets | qualification/real_workflow_review_handoff.py:334-373 | the first three picks or a refusal; the three-distinct-paragraphs failure can never fire |
| Passages.PickInParagraph | qualification/real_workflow_review_handoff.py:346-365 | at most one pick per paragraph: the first suitable candidate of the first leaf that has one |
| Passages.PickedPassages | qualification/real_workflow_review_handoff.py:334-373 | the picks have strictly increasing indices, none is part of another, each is once in the raw member and in exactly one paragraph |
| Passages.IndexNamesParagraph | qualification/real_workflow_review_handoff.py:337-345 | the index of a passage that stands in its leaf names its paragraph if and only if every child of `body` up to it comes before all other paragraphs |
| Passages.IndexRight | qualification/real_workflow_review_handoff.py:337-345 | for every pick: its index names its paragraph if and only if the passage stands there |
| Passages.TableShiftsIndex | qualification/real_workflow_review_handoff.py:334-373 | a table's paragraph in front: three passages are reported, and every index names the paragraph before the passage's own |
| Passages.SpacedLeafPicksElsewhere | qualification/real_workflow_review_handoff.py:334-373 | without a table, a leaf with two spaces in a row: three passages are reported, one of them at an index whose paragraph does not hold it |
| Passages.MutateMiddle | qualification/real_workflow_review_handoff.py:376-383 | exactly one position changes: the first alphanumeric one from the middle on, or the middle |
| VisibleText.Collector.Walk | qualification/real_workflow_word_handoff.py:971-980 | appends the texts below that no deletion covers |
| VisibleText.Collector.WalkParagraphs | qualification/real_workflow_word_handoff.py:981-982 | one walk from every paragraph in document order |
| VisibleText.TrackVisibleText | qualification/real_workflow_word_handoff.py:955-983 | the collected text, with the fallbacks for a missing and an unparseable member |
| VisibleText.VisibleIsFinalView | qualification/real_workflow_word_handoff.py:955-983 | the collected text is the final view, each undeleted text once and in order, if and only if no paragraph in another or in a deletion has text to show |
| VisibleText.CollectedByName | qualification/real_workflow_word_handoff.py:971-982 | what is collected, from every paragraph in turn, is every text that no `del` and no `moveFrom` stands around below that paragraph |
| VisibleText.ShownExactly | qualification/real_workflow_word_handoff.py:955-983 | a missing member shows nothing, one that does not parse what is left of it, any other what is collected |
| VisibleText.NestedParagraphShownTwice | qualification/real_workflow_word_handoff.py:981-982 | a nested paragraph's text is collected twice |
| VisibleText.DeletedParagraphShown | qualification/real_workflow_word_handoff.py:971-982 | a paragraph inside a deletion is collected although it is deleted |
| TypedView.Paragraphs | qualification/typed_renderer_diff.py:73-96 | the line loop reads what `Read` defines for this reader |
| TypedView.AuditBlocks | qualification/projection_audit.py:302-322 | the same for the audit's reader |
| TypedView.ReadersAgree | qualification/projection_audit.py:302-322 | on every text the audit reads what the other reader reads without the empty id; they agree if and only if no marker has an empty id |
| TypedViewLaws.SplitExactly | qualification/typed_renderer_diff.py:82-82 | where a text is cut into lines, by code |
| TypedViewLaws.ViewRead | qualification/typed_renderer_diff.py:73-96 | a view with two paragraphs, a part and a typed section, read from its characters |
| TypedView.EmptyIdReadApart | qualification/projection_audit.py:302-322 | one line with an empty id is a block for one reader and none for the other |
| TypedView.ReadingUndoesPrinting | qualification/typed_renderer_diff.py:73-96 | both readers give back every printed block's body under its id |
| Fingerprints.Compare | qualification/typed_renderer_diff.py:118-139 | the five key lists of the report |
| Fingerprints.ReportParts | qualification/typed_renderer_diff.py:118-139 | the five lists part the keys: each key is in the list of its kind and in no other |
| Fingerprints.ReportExactly | qualification/typed_renderer_diff.py:118-139 | the five lists on the bodies themselves |
| Fingerprints.CleanReport | qualification/typed_renderer_diff.py:118-139 | only identical keys are reported if and only if the two views are the same |
| Fingerprints.CompareFingerprint | qualification/projection_audit.py:334-354 | the dropped, added and changed identities of every family that has any |
| Fingerprints.DriftExactly | qualification/projection_audit.py:334-354 | a reported drift holds exactly the identities that are gone, that are new and that have moved |
| Fingerprints.NoDriftMeansEqual | qualification/projection_audit.py:334-354 | no drift if and only if the fingerprints are equal once empty families are left out |
| Fingerprints.SameFamiliesNoDrift | qualification/projection_audit.py:334-354 | between fingerprints of the same families, no drift if and only if they are equal |
| Fingerprints.EmptyFamilyUnnoticed | qualification/projection_audit.py:337-338 | an empty family against an absent one is not reported |

## Left out

- The Rust engine (islands, structure anchors, store journal, review server): its crates are not part of this model.
- Sub-processes, PowerShell, Word, sockets, HTTP, the text of the line protocol: a session is a list of stripped reply lines, a timeout or a failure.
- ZIP, JSON, expat and ElementTree: arbitrary functions from bytes; a package is a map from member names to bytes, so duplicate member names are not modelled.
- Case folding: any function on strings; only `SafeTargets.QueriesApart` asks it to work character by character, and only for its last clause.
- Rows: completion status, category and stage; details, hashes, digests, features, private logs and evidence copies add no decision.
- Locator.LocateParagraphs: the entry's `body_index` equals its direct ordinal and is not kept twice; XPath strings of targets are not modelled.
- PredictedEdit.PredictedIsTextEdit: asks that the chosen `w:t` has no child elements; inside their tags a query could be part of a name.
- SafeTargets.PlacesApart: asks that the characters of the tiles in the first target's `w:t` are written as themselves; a letter or digit written as a character reference is not covered.
- SafeOverlap.OverlapExactly: asks the same, and that no query character ends in the bytes right before a stretch of tiles.
- ArchiveRuns.GoesThroughExactly: asks that the manifest's file name holds no `/` and does not end in this process's temporary suffix.
- LocatorDirects.DirectsAreChildren: with `LocatorDirects.DirectsAfterEmptyBody` it covers every document whose first `body` has an ASCII name; a `body` bound by a prefix outside ASCII is not covered.
- Engine.McpSession: diagnostics are a list or absent, and an outcome is a string; other values raise in the source where they are read.
- Verdict.Outcome: a package is read as a whole, so a damaged member counts wherever the package is opened, and library exceptions other than the one for such a member are not modelled; a page that timed out is filed under the stage of a lost one.
- Verdict.RunOne: the engine's answers and files are arbitrary per turn, but the harness's own copies succeed and nothing else writes to the stage directory.
- Verdict.ClassifyOpenFailure: paragraph numbers are read with ASCII digits, while the pattern in the source also matches other decimal digits.
- Paging.CollectSingle: counters of a reply are an object of integers or absent; other values raise in the source.
- ResultsLog.EveryInterleaving: a step is one read, one truncation or one written line; buffering and crashes of the file system are not modelled, a stopped process is (`ResultsLog.StoppedWhileWriting`).
- ArchiveLaws.WriteOnce: files whose name ends in this process's temporary suffix may be overwritten.
- ArchiveLaws.FreezeAgain: asks that no original lies at a temporary path, since the first run may have overwritten it.
- CorpusVerify.SourcesStayBelow: joining is lexical; links, and names that Windows treats alike, are not modelled.
- Corpus.Archive.FreezeInventory: paths are plain strings and equal strings are equal files; directories and links are not modelled.
- CorpusVerify.VerifyManifest: a manifest whose entries lack a field counts as one that cannot be parsed, and a traversing path is reported without its text.
- Passages.PickTargets: texts and leaves of the document are given; reading them from the package is left out.
- Fingerprints.CompareFingerprint: keeps all identities where the source keeps their number and three samples.
- Fingerprints.Compare: the normalisation by regular expressions is an arbitrary function; kind counts and totals are left out.
- VisibleText.TrackVisibleText: cutting the tags out of an unparseable member is an arbitrary function.
- The scanner, locator and pairing copied into `real_workflow_word_handoff.py`: nothing calls them, targets come from the shared oracle.
- `semantic_snapshot`, `_external_targets`, the lanes themselves, argument parsing, printing, host metadata, `facade_task_suite.py`, `parity/generate.py` and the release oracles: they add only easy facts.
