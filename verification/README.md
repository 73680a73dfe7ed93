# t2c_data: verified models of its data-quality jobs, PDF writer, seeders and migrations

This project models, in Dafny 4.11, the parts of the t2c_data backend that compute something worth proving, and
proves properties of those models. `dafny verify dfyconfig.toml` checks all of it.

## What is modelled

**The PDF writer** (`scripts/generate_t2c_data_manual.py`, class `PDFWriter`). `PdfText` has the escaping and cp1252
replacement of text, and the literal-string reader of section 7.3.4.2 of ISO 32000-1. `PdfWrap` has the greedy line
breaking. `PdfLayout` says, as a function of the writer's state, what the cover and each block draw and where; `PdfWriter`
is the class with its fields and loops, each method proved against that function. `PdfFile` is the text of the file and a
reader that starts at `startxref`, follows the cross-reference table, trailer, catalog, page tree and pages, and takes
stream extents from `/Length` (sections 7.3.8, 7.5.4 and 7.5.5). `PdfRoundTrip` proves that the reader recovers every
object and every page; `PdfBuild` is `build` itself. `PdfContent` is a reader of content streams, which takes operands
and then an operator as a command (sections 7.3 and 7.8.2), and `PdfManual` proves that the file of any manual reads as the
commands of everything the manual emits, in order. A byte is a `char` below 256.

**The rule executor** (`spark-jobs/dq_rules_job.py`). `Tables` has rows with SQL NULL, the kind of each
column, and the library functions left open (regex engine, casts, clock), so that every theorem holds for every choice of
them. `ColumnNames` is how Spark reads
the text given to `F.col`: dots, backticks, stars, and names without regard to case. `Rules` turns conditions into
column expressions, refuses those whose kinds Spark's analysis does not compare, evaluates the others in three-valued logic
and folds them; `RuleMeaning` says what each operator asks of a
row without expressions or truth tables, and proves the two agree. `Reconciliation` compares two tables by count, sum,
keyed count and keyed sum, with join and grouping semantics spelled out. `RulesJob` is the result loop.

**The profiler** (`spark-jobs/dq_profiling_job.py`). `Profiler` has the null, distinct and duplicate counts and the
business key; `Suggestions` the proposed rules; `DeltaWindows` the watermark windows; `Scores` the dimension scores and
their blend. The properties that matter most here span the profiler and the executor.

**Scan payload, seeders, migrations.** `ScanPayload` is the filter-and-group part of the datasource scan.
`SnapshotSeeder`, `TurnSeeders` and `RunHistorySeeder` are seeders that commit in chunks and resume from a count;
`Resumption` is what they have in common. `PkSequences` with `PkSchema`, `LogMigration` and `Slugs` are three data
migrations.

`Results`, `PyStrings`, `Decimal`, `Lexing`, `Counting` and `Sums` are shared vocabulary. Floating-point numbers are exact
reals and `round` is exact rounding half to even.

## What the proofs found

- Whatever the elements of a manual, a reader of its file sees on each page exactly the commands of the page's operators,
  numbers rounded as printed and texts as their cp1252 bytes, and then the footer; all pages together are what the manual
  emits, in order (`PdfManual.WriteManual`).
- A carriage return in a PDF literal string comes back as a line feed. The round trip holds exactly for texts without
  one (`PdfText.LiteralRoundTrip`, `PdfBuild.TextReadsBackIff`). Lines of paragraphs and table cells never have one, so only
  headings, table titles and the cover are at risk (`PdfBuild.WrappedTextReadsBack`).
- A paragraph or table taller than a page is drawn past the bottom margin: neither is ever split. Over a whole document
  everything drawn stays between the margins exactly when each block, up to the first that raises, has room on a page
  (`PdfLayout.DocumentOnPagesIff`).
- Text operators name fonts `Helvetica...`, while a page's resources define only `F1`, `F2` and `F3`: they are found exactly
  on pages without text (`PdfBuild.FontsFoundIff`).
- The profiler quotes column names and the rule executor does not. A rule suggested for a column `cliente.email` always
  fails (`Suggestions.DottedNameIsRefused`), and one for a column whose name is another's in backticks reads that other
  column (`Profiler.QuotedNameReadsAnother`). A suggestion runs exactly when Spark finds a column for the bare name, its
  kind can be compared with the suggested literals and the regex engine takes its pattern; it is about its own column
  exactly when the name is plain and no other differs only by case (`Suggestions.SuggestionsAreExecutable`).
- The allowed values the profiler suggests are masked texts, whatever the kind of the column, and Spark does not compare
  booleans, bytes or arrays with texts: the suggestion for a boolean column `status` ends in an error
  (`Suggestions.BooleanStatusIsRefused`, `Suggestions.AllowedIsRefused`).
- The tolerance branch of keyed-count reconciliation is unreachable, and a key holding a NULL always fails
  (`Reconciliation.KeyedCountIff`). Keyed sum without tolerances accepts any two tables
  (`Reconciliation.NoToleranceAlwaysPasses`), asks for both tolerances where both are given, and the unkeyed forms
  accept either. A key holding a NULL is compared against zero on each side, even when both sides have it
  (`Reconciliation.KeyedSumIff`). A key column listed twice makes keyed count raise and is nothing to keyed sum.
- Seeders start their cycles of values anew in every run, so a resumed run gives its rows other values than an
  uninterrupted one unless it resumed at a multiple of the length after which the cycles come round together: 4 for
  snapshots (`SnapshotSeeder.ResumedRowsIff`), 28 for incidents and 56 for audit events (`TurnSeeders.ResumedRowsIff`). The
  default chunk of 5000 is a multiple of 4 only, so an interrupted default run leaves other incidents and audit events
  (`Resumption.DefaultChunks`). Times are counted back from the start of the run that makes a row.
- The access-log migration rolls back on a request without a route, with one too long for an index, with a `duration_ms`
  that is no number or beyond 32 bits, or with a key beyond 32 bits, since the audit log has 64-bit keys and the new table
  has not (`LogMigration.StoppingRequests`). Requests committed between its INSERT and its DELETE are lost
  (`LogMigration.LogDatabase.MoveRequests`).
- Realignment leaves columns safe when the names it generates differ from each other and from sequences owned by others, the
  columns draw from the sequences they own, and those count up (`PkSchema.KeySchema.AlignAll`). Generated names can
  coincide, as for `a.b_c` and `a_b.c`; a column that shares its sequence is left safe exactly when its ids are below the
  next value after the ids of the last column that uses it, which fails for ids 9 and 5 (`PkSchema.CoincidingNames`). A
  column that owns a sequence but lost its default is not given one.
- The coverage returned with a blend is rounded, so with arbitrary weights it can read 100 while a dimension is missing;
  with the two profiles it cannot (`Scores.CoverageIsFullIff`, `Scores.ProfileCoverageIff`).
- The second replacement of the slug computation never changes anything (`Slugs.SecondReplaceIsIdle`). The unique
  constraint on slugs fails for names that come down to the same text, and for a name that equals the stand-in of a
  nameless row (`Slugs.SlugsDifferIff`, `Slugs.StandInCollides`).

## Model

| member | source | states |
|---|---|---|
| PdfText.EscapeIsOnePass | scripts/generate_t2c_data_manual.py:825-827 | the three sequential replacements of `_escape` are one character-by-character pass: none escapes what another added |
| PdfText.LiteralRoundTrip | scripts/generate_t2c_data_manual.py:825-827 | an escaped text read by section 7.3.4.2 ends at its own closing parenthesis whatever follows, and is unchanged if and only if it has no carriage return |
| PdfText.CarriageReturnIsLost | scripts/generate_t2c_data_manual.py:825-827 | a concrete text with a carriage return that does not come back |
| PdfText.EncodeTextIsEscapedDisplay | scripts/generate_t2c_data_manual.py:829-832 | `_encode` is the escape of the displayable text: dash normalisation and cp1252 replacement commute with escaping |
| PdfText.TextOperandReadsBack | scripts/generate_t2c_data_manual.py:843-845 | the bytes of a `Tj` operand read back as the cp1252 bytes of the displayable text |
| PdfWrap.EstimateLinesKeepsWords | scripts/generate_t2c_data_manual.py:834-841 | line breaking keeps all words in order; a line passes the character budget only when it is one long word |
| PdfWrap.LineIsFull | scripts/generate_t2c_data_manual.py:841 | a line ends only at the end of the text or where the next word would pass the width |
| PdfWrap.LinesAreBlankFree | scripts/generate_t2c_data_manual.py:836-841 | no line of a wrapped text holds white space other than blanks |
| PdfWriter.PDFWriter.constructor | scripts/generate_t2c_data_manual.py:807-812 | a new writer is on page one, empty, with the pen at the top margin |
| PdfWriter.PDFWriter.NewPage | scripts/generate_t2c_data_manual.py:814-819 | finishes the page unless it is empty, and resets pen and counter; pages and current operators stay exactly what was emitted |
| PdfWriter.PDFWriter.Ensure | scripts/generate_t2c_data_manual.py:821-823 | breaks the page exactly when the needed height would pass the bottom margin |
| PdfWriter.PDFWriter.DrawText | scripts/generate_t2c_data_manual.py:843-845 | a colour operator, then the text operator, appended to what was emitted |
| PdfWriter.PDFWriter.Paragraph | scripts/generate_t2c_data_manual.py:847-857 | the loop leaves the state of `LayoutPara`: lines at exact multiples of the leading below the pen, on one page; exactly those lines are emitted |
| PdfWriter.PDFWriter.Heading | scripts/generate_t2c_data_manual.py:859-872 | the state of `LayoutHeading`: text, rule and pen by level; exactly these are emitted |
| PdfWriter.PDFWriter.BulletList | scripts/generate_t2c_data_manual.py:874-876 | one indented paragraph per item, in order, and nothing else emitted |
| PdfWriter.PDFWriter.MeasureRow | scripts/generate_t2c_data_manual.py:891-896 | the tallest cell of a row, at least 22 points |
| PdfWriter.PDFWriter.DrawRow | scripts/generate_t2c_data_manual.py:906-922 | the cells of a row side by side, each column starting where the ones before it end |
| PdfWriter.PDFWriter.DrawTable | scripts/generate_t2c_data_manual.py:878-927 | the state of a table block, including the title left behind when measuring a row raises; exactly its operators are emitted |
| PdfWriter.PDFWriter.DrawCover | scripts/generate_t2c_data_manual.py:932-953 | the state of the cover: its operators in order, metadata entries at exact multiples of 22 points, the pen at 100 |
| PdfWriter.PDFWriter.RenderElements | scripts/generate_t2c_data_manual.py:955-977 | the first cover on a page of its own, then the layout of the elements' blocks up to the first exception; without a cover nothing is drawn; the operators emitted are the cover's and then the blocks', in order |
| PdfWriter.PDFWriter.Build | scripts/generate_t2c_data_manual.py:979-1025 | the file of all finished pages and the current one, which are exactly the operators emitted, in order; below ten gigabytes a reader recovers every page's stream, in order |
| PdfWriter.ManualLayout | scripts/generate_t2c_data_manual.py:955-977 | for any manual from a new writer: the cover page in front of the pages of the blocks alone, whose operators are the blocks' in order; those stay between the margins if and only if every reached block has room on a page; nothing raises when all fit; no page is finished empty, and everything reads in order |
| PdfLayout.LinesBetween | scripts/generate_t2c_data_manual.py:854-856 | every line of a run lies between its first and its last baseline |
| PdfLayout.CellInsideRow | scripts/generate_t2c_data_manual.py:891-920 | every line of a table cell has its baseline inside the cell's box |
| PdfLayout.TableBetween | scripts/generate_t2c_data_manual.py:898-927 | all boxes, and all text in them, lie within the table's total height below the pen |
| PdfLayout.DocumentKeepsMargins | scripts/generate_t2c_data_manual.py:814-927 | over any document whose blocks each fit an empty page: nothing raises, nothing is drawn outside the margins, pen at most two points below, no empty finished page, page counter right |
| PdfLayout.DocumentOnPagesIff | scripts/generate_t2c_data_manual.py:814-927 | from any state of the writer, the operators of any document, texts, rules, boxes and colours, follow what is there in order, and stay between the margins if and only if each block, up to the first that raises, has room on a page |
| PdfLayout.DocumentLeavesNoEmptyPage | scripts/generate_t2c_data_manual.py:814-823 | whatever a document draws, and whether or not it fits, no page is finished empty |
| PdfLayout.LayoutAfter | scripts/generate_t2c_data_manual.py:814-927 | pages finished earlier are kept in front, and nothing drawn later depends on them |
| PdfLayout.ParagraphOnPageIff | scripts/generate_t2c_data_manual.py:847-857 | from any state, the lines of a paragraph stay above the bottom margin if and only if their span fits the page body |
| PdfLayout.TableOnPageIff | scripts/generate_t2c_data_manual.py:898-927 | from any state, the rows of a table stay above the bottom margin if and only if their heights fit the page body |
| PdfLayout.EnsureKeepsOps | scripts/generate_t2c_data_manual.py:814-823 | a page break neither loses nor reorders operators |
| PdfLayout.DocumentReadsInOrder | scripts/generate_t2c_data_manual.py:847-927 | the text of all pages in order is the document's lines in order, wherever pages break and even when a table raises |
| PdfBuild.EncodedContent | scripts/generate_t2c_data_manual.py:994-997 | encoding the text of a content object gives the object whose `/Length` is the number of encoded stream bytes |
| PdfBuild.AddContents | scripts/generate_t2c_data_manual.py:992-997 | one content object per page, numbered from four |
| PdfBuild.AddPages | scripts/generate_t2c_data_manual.py:998-1003 | page objects that name the predicted /Pages number and their own content stream |
| PdfBuild.AddTree | scripts/generate_t2c_data_manual.py:1004-1006 | /Pages with the pages in order, catalog and info |
| PdfBuild.WriteBody | scripts/generate_t2c_data_manual.py:1008-1014 | each recorded position is the length of everything written before that object |
| PdfBuild.WriteXref | scripts/generate_t2c_data_manual.py:1015-1019 | the cross-reference section for those positions |
| PdfBuild.BuildFile | scripts/generate_t2c_data_manual.py:979-1025 | the loops of `build` produce exactly the file text that the reader is proved against |
| PdfBuild.TextIsInStream | scripts/generate_t2c_data_manual.py:843-845 | every text operator of a page stands in its content stream as a literal that reads as the displayable text |
| PdfBuild.FontsFoundIff | scripts/generate_t2c_data_manual.py:843-845 | all text operators of a page name fonts that the page's dictionary defines if and only if the page has no text operator |
| PdfBuild.TextReadsBackIff | scripts/generate_t2c_data_manual.py:843-845 | a text operator's operand reads as exactly its displayable text if and only if the text has no carriage return |
| PdfBuild.WrappedTextReadsBack | scripts/generate_t2c_data_manual.py:835-857 | every line of a wrapped text reads back as exactly its displayable text |
| PdfFile.TokensOfPrinted | scripts/generate_t2c_data_manual.py:1001-1006 | lexing a printed dictionary gives its tokens back |
| PdfRoundTrip.ObjectNumbers | scripts/generate_t2c_data_manual.py:987-1006 | which object has which number; the /Pages number predicted before the pages exist is right |
| PdfRoundTrip.ObjectReadsBack | scripts/generate_t2c_data_manual.py:1008-1019 | entry `i` of the table leads to `i 0 obj`, and the object read there is object `i`, byte for byte, whatever the streams contain |
| PdfRoundTrip.StartXrefReadsBack | scripts/generate_t2c_data_manual.py:1015-1024 | the end of the file leads to the cross-reference table and its size |
| PdfRoundTrip.PageReadsBack | scripts/generate_t2c_data_manual.py:1000-1003 | page k names the right parent and leads to content stream k |
| PdfRoundTrip.DocumentReadsBack | scripts/generate_t2c_data_manual.py:979-1025 | following trailer, catalog, page tree and pages recovers exactly the content streams in page order |
| PdfContent.RoundedIsNear | scripts/generate_t2c_data_manual.py:843-845 | a number printed with two decimals reads back within half a hundredth, one with three within half a thousandth |
| PdfContent.ReadsLine | scripts/generate_t2c_data_manual.py:843-845 | the line of any operator, texts included, is read as that operator's tokens in front of whatever follows |
| PdfContent.ContentReadsBack | scripts/generate_t2c_data_manual.py:992-997 | the stream of a page reads as the commands of its operators in order, with numbers as printed and texts as their displayable bytes, and then those of the footer with the page's number |
| PdfManual.ManualIsReadable | scripts/generate_t2c_data_manual.py:955-977 | every operator a manual emits, the lines of the cover included, is one that reads back |
| PdfManual.ManualReadsBack | scripts/generate_t2c_data_manual.py:955-1025 | followed from its end, the file of any manual reads page by page as the commands of the page and its footer, and all pages together as the commands of everything the manual emits, in order |
| PdfManual.WriteManual | scripts/generate_t2c_data_manual.py:1060-1062 | a file comes about exactly when rendering does not raise, and below ten gigabytes it reads back as the whole manual |
| Rules.OppositesSplitRows | spark-jobs/dq_rules_job.py:43-95 | a condition and its opposite are accepted together, whatever the kinds of the columns; a row violates exactly one of them, or both exactly when the comparison is NULL |
| Rules.ViolationRows | spark-jobs/dq_rules_job.py:110-142 | the fold over the conditions keeps exactly the rows with some doubtful condition under AND, with only doubtful ones under OR; uniqueness forms included, and errors of the job, of name resolution, of comparisons between kinds that Spark does not compare, and of the regex engine |
| Rules.OrderIsIrrelevant | spark-jobs/dq_rules_job.py:136-142 | reordering conditions changes neither acceptance nor the flagged rows |
| Rules.MoreConditions | spark-jobs/dq_rules_job.py:136-142 | another condition only adds violations under AND and only removes them under OR |
| Rules.NormalizeOnce | spark-jobs/dq_rules_job.py:145-146 | normalising works name by name in order, leaves names without white space at their ends, changes a list exactly when some name is not so, and is idempotent |
| ColumnNames.QuoteFinds | spark-jobs/dq_profiling_job.py:63-65 | a name quoted by the profiler finds its own column, whatever characters it holds, unless another differs only by case |
| ColumnNames.PlainFinds | spark-jobs/dq_rules_job.py:40 | a name given to Spark as it stands finds its own column if and only if it is plain and no other differs only by case |
| RuleMeaning.ConditionMeans | spark-jobs/dq_rules_job.py:31-107 | every accepted condition evaluates to true exactly on the rows that meet what its operator asks, in the columns its names mean, with texts read as the type of the number they are compared with |
| RuleMeaning.LocatedAsNamed | spark-jobs/dq_rules_job.py:32-40 | with plain names that no other differs from only by case, a condition is about the very columns it names |
| RuleMeaning.RuleMeans | spark-jobs/dq_rules_job.py:136-142 | a row is flagged under AND if and only if it misses some condition, under OR if and only if it misses all |
| RulesJob.RunRule | spark-jobs/dq_rules_job.py:320-371 | status, count, preview and message of a rule follow from that rule and the table alone, a failed reconciliation's message being its reason |
| RulesJob.RunRules | spark-jobs/dq_rules_job.py:318-378 | one result per rule in order, each its own rule's; the summary counts add up |
| Reconciliation.KeyedCountIff | spark-jobs/dq_rules_job.py:171-207 | keyed count passes if and only if both sides have the same keys and none holds a NULL; tolerances are never consulted |
| Reconciliation.GroupsAddUp | spark-jobs/dq_rules_job.py:244-245 | the group sums of a table add up to its total, NULLs included |
| Reconciliation.JoinConservesTotals | spark-jobs/dq_rules_job.py:246-248 | the differences of the joined rows add up to the difference of the totals, NULL keys included |
| Reconciliation.KeyedSumIff | spark-jobs/dq_rules_job.py:243-265 | keyed sum passes if and only if every key meets each given tolerance: a key without NULL with both sides' sums, a missing side being zero; a key with a NULL with each side's sum against zero; and how many rows the join has |
| Reconciliation.KeyedSumBoundsTotals | spark-jobs/dq_rules_job.py:243-283 | passing with an absolute tolerance t over n joined rows bounds the difference of totals by n*t; with t zero the unkeyed sum passes under any tolerances |
| Reconciliation.NoToleranceAlwaysPasses | spark-jobs/dq_rules_job.py:255-265 | keyed sum without tolerances passes for any two tables |
| Profiler.UniqueFlagsExcess | spark-jobs/dq_rules_job.py:124-134 | a uniqueness rule over any columns flags between one and two rows per row in excess of one per key, and none exactly when no two rows share a key |
| Profiler.UniqueAgreesWithProfile | spark-jobs/dq_profiling_job.py:326-339 | `unique` runs if and only if Spark finds a column for the name, and flags between excess and twice the excess that the profiled counts of that column give, so none exactly when there is none |
| Profiler.NotNullReportsNullCount | spark-jobs/dq_profiling_job.py:326 | `not_null` runs if and only if the table has the name and Spark finds a column for it, and reports exactly that column's profiled null count |
| Profiler.QuotedNameReadsAnother | spark-jobs/dq_rules_job.py:31-47 | a concrete table on which a rule on one column is accepted and counts the NULLs of another |
| Profiler.GroupCountIsDistinct | spark-jobs/dq_profiling_job.py:326-327 | distinct count plus one for NULLs is the number of groups |
| Profiler.DuplicateCountIs | spark-jobs/dq_profiling_job.py:339 | the duplicate count is the rows in excess of one per group, and one more when there are NULLs; it is zero exactly when there is no NULL and no value twice |
| Profiler.BusinessKeyCandidates | spark-jobs/dq_profiling_job.py:302-316 | the loops list single keys in column order, then the combinations the table has |
| Profiler.BusinessKeyDuplicates | spark-jobs/dq_profiling_job.py:400-413 | the chosen key is the first of the longest candidates, and the count is the rows in excess of its keys |
| Profiler.DuplicateChain | spark-jobs/dq_profiling_job.py:888-889 | full-row duplicates are at most the business-key duplicates, and those at most the duplicate count of each column of the key |
| Suggestions.SuggestionsForColumn | spark-jobs/dq_profiling_job.py:439-646 | which suggestions a profile earns, in order, each under its own condition |
| Suggestions.SuggestionsAreExecutable | spark-jobs/dq_profiling_job.py:439-646 | every suggestion for a column is accepted by the executor if and only if Spark finds a column for its bare name, the kind of that column can be compared with the suggested literals, and the regex engine takes its pattern; the name finds its own column exactly when it is plain and alone, and `not_null` and `unique` then report what the profile predicts |
| Suggestions.DottedNameIsRefused | spark-jobs/dq_profiling_job.py:63-65 | the profiler reaches a column `cliente.email` and the executor refuses every rule suggested for it |
| Suggestions.AllowedIsRefused | spark-jobs/dq_rules_job.py:70-71 | the list of texts suggested for a column of booleans, bytes or arrays is refused |
| Suggestions.BooleanStatusIsRefused | spark-jobs/dq_profiling_job.py:567-587 | a boolean column `status` with two values is suggested two masked texts, and the rule ends in an error |
| DeltaWindows.ClauseReadsBack | spark-jobs/dq_profiling_job.py:766-784 | every clause that passes the guards reads back as exactly the window asked for |
| DeltaWindows.ExactlyOneWindow | spark-jobs/dq_profiling_job.py:781-783 | over increasing bounds, a row of the whole span lies in exactly one window and any other row in none |
| DeltaWindows.WindowsPartition | spark-jobs/dq_profiling_job.py:326-327 | row and null counts add up over consecutive windows; the distinct count lies between the largest and the sum |
| Scores.BlendScore | spark-jobs/dq_profiling_job.py:706-717 | the running totals are the weighted mean of the present scores and the share of weight they carry |
| Scores.BlendIsMean | spark-jobs/dq_profiling_job.py:706-717 | the blend lies between the smallest and the largest present score of positive weight |
| Scores.BlendIsMonotone | spark-jobs/dq_profiling_job.py:706-717 | raising a score never lowers the blend, before or after rounding |
| Scores.CoverageIsFullIff | spark-jobs/dq_profiling_job.py:717 | coverage is a percentage; before rounding it is full if and only if every positively weighted dimension is scored and the weights reach one, as returned if and only if it was at least 99.99995 |
| Scores.ProfileCoverageIff | spark-jobs/dq_profiling_job.py:717-743 | under either weight profile the coverage returned is 100 if and only if every positively weighted dimension is scored, and otherwise at most 95 |
| Scores.PayloadCoverageIff | spark-jobs/dq_profiling_job.py:899-902 | the payload's coverage is a percentage, full if and only if all nine dimensions are scored; it implies full coverage of the blend, and is equivalent to it under the fintech profile |
| Scores.NullPercentIsPercent | spark-jobs/dq_profiling_job.py:328-347 | the doubly rounded null percentage is a percentage |
| Scores.DimensionScoresArePercents | spark-jobs/dq_profiling_job.py:649-703 | every dimension score of a well-formed profile is a percentage |
| Scores.ObservedScore | spark-jobs/dq_profiling_job.py:757-759 | the observed score is absent exactly for an empty table, and a percentage otherwise |
| ScanPayload.GroupColumns | spark-jobs/datasource_scan_job.py:160-172 | the dictionary holds, per key, the entries of its rows in source order |
| ScanPayload.FilterBeforeGroup | spark-jobs/datasource_scan_job.py:157-158 | filtering columns by schema before grouping changes nothing for an allowed table |
| ScanPayload.BuildTables | spark-jobs/datasource_scan_job.py:157-186 | the allowed tables in order, each with exactly the entries of the catalog's columns of its schema and name, in the catalog's order |
| ScanPayload.ColumnsArePartitioned | spark-jobs/datasource_scan_job.py:160-186 | with one table per key, all entries listed, each with the table it is listed under, are as a multiset exactly those of the columns that have a table, under their own tables; and those of all columns if and only if none is an orphan |
| SnapshotSeeder.SnapshotTable.Seed | scripts/seed_large_incidents.py:194-256 | whatever was there and wherever it is cut off, a run adds the rows for the wanted ones from the existing count on, in order and without gap: as many full chunks as commits came about, or all, returning how many; they are the rows of an uninterrupted run if and only if it resumed at a multiple of four |
| SnapshotSeeder.SnapshotTable.SeedUntilDone | scripts/seed_large_incidents.py:194-256 | any interrupted runs and a complete one leave every wanted row exactly once, and the last returns what the others had left; the table is an uninterrupted run's if and only if every run that found something missing resumed at a multiple of four |
| SnapshotSeeder.ProductDiffers | scripts/seed_large_incidents.py:218-219 | no pair is wanted twice |
| SnapshotSeeder.ResumedRowsIff | scripts/seed_large_incidents.py:214-243 | the rows a resumed run makes equal those an uninterrupted run puts at the same positions if and only if it resumed at a multiple of four |
| Resumption.TurnsAgreeIff | scripts/seed_large_incidents.py:57-63 | a cycle started at a row is in step with one started at the first row if and only if the row is a multiple of its length |
| Resumption.ChunksInTurn | scripts/seed_large_incidents.py:249-252 | with chunks of a multiple of a cycle's length every run resumes in turn, however the runs before it were cut off |
| Resumption.DefaultChunks | scripts/seed_large_incidents.py:264 | the default chunk keeps snapshots in turn after any interruptions, but not incidents or audit events after a single commit |
| TurnSeeders.IncidentsTurnEvery28 | scripts/seed_large_incidents.py:54-100 | incidents at one position are the same if and only if their turns agree modulo 28 |
| TurnSeeders.AuditEventsTurnEvery56 | scripts/seed_large_incidents.py:134-178 | audit events at one position are the same if and only if their turns agree modulo 56 |
| TurnSeeders.ResumedRowsIff | scripts/seed_large_incidents.py:54-63 | the rows of a resumed run equal those an uninterrupted run puts at the same positions if and only if it resumed at a multiple of the common length of its cycles |
| TurnSeeders.SeededTable.Seed | scripts/seed_large_incidents.py:43-114 | a run adds the rows of the positions from the existing count on, as many full chunks as commits came about or all, returning how many |
| TurnSeeders.SeededTable.SeedUntilDone | scripts/seed_large_incidents.py:117-191 | any interrupted runs and a complete one fill every position once and in order; the table is an uninterrupted run's if and only if every run that found something missing resumed in turn |
| RunHistorySeeder.RunTable.Seed | scripts/seed_large_dq_history.py:156-179 | added runs continue the round-robin history from the existing count: with a positive chunk as many full batches as commits came about, or all that is missing, which is a finished run; zero raises, negative adds nothing |
| RunHistorySeeder.RunTable.SeedUntilDone | scripts/seed_large_dq_history.py:156-179 | after any interruptions and a complete run there are max(existing, target) runs and any two rules differ by at most one |
| RunHistorySeeder.RunsPerRule | scripts/seed_large_dq_history.py:162-163 | how often each rule has run after n runs |
| RunHistorySeeder.HistoryIsBalanced | scripts/seed_large_dq_history.py:162-163 | the run counts of any two rules differ by at most one |
| PkSequences.AlignmentsAgree | alembic/versions/9c3d4e5f6a7b_separate_access_logs_and_add_retention_policies.py:20-31 | for any one sequence the SQL form and the Python form leave the same state, or both raise when the value is out of its bounds; its next value is above every id if and only if it counts up or no id is positive |
| PkSchema.SeparateNames | alembic/versions/d5e6f7a8b9c0_realign_integer_pk_sequences.py:32-55 | when generated names differ from each other and from every sequence owned by another, each column keeps or gets a sequence of its own through the whole loop |
| PkSchema.CoincidingNames | alembic/versions/d5e6f7a8b9c0_realign_integer_pk_sequences.py:40-55 | `a.b_c` with id 9 and `a_b.c` with id 5 draw from one sequence, whether or not the second owned it, and after the loop it is at 6: above the second's id, below the first's |
| PkSchema.KeySchema.Align | alembic/versions/d5e6f7a8b9c0_realign_integer_pk_sequences.py:26-76 | from any ids, owners, defaults and leftover sequences: raises exactly on a name that is no identifier or taken by another kind of relation, or a value out of bounds, changing nothing; otherwise exactly one sequence is set, and owner and default change only for a column that owned none |
| PkSchema.KeySchema.AlignAll | alembic/versions/d5e6f7a8b9c0_realign_integer_pk_sequences.py:79-104 | raises exactly when some column cannot be aligned when the loop comes to it; otherwise every sequence is as its last user wants it and unused ones are as before, a column that shares one is safe if and only if its ids are below the next value after the last user's, and separate columns that draw from their own sequence are safe if and only if it counts up or they hold no positive id |
| PkSchema.KeySchema.InsertDefault | alembic/versions/d5e6f7a8b9c0_realign_integer_pk_sequences.py:49-55 | a default insert succeeds if and only if the column has a default, its sequence is not exhausted and the value is no key yet; with room left it never fails from a safe state |
| PkSchema.KeySchema.InsertMany | alembic/versions/d5e6f7a8b9c0_realign_integer_pk_sequences.py:58-76 | from a safe state any number of default inserts for which there is room succeed, one step apart, with ids new and different from each other, other columns keeping theirs |
| LogMigration.SplitConserves | alembic/versions/9c3d4e5f6a7b_separate_access_logs_and_add_retention_policies.py:115-120 | selecting and deleting by the same condition neither loses nor doubles a row |
| LogMigration.LogDatabase.MoveRequests | alembic/versions/9c3d4e5f6a7b_separate_access_logs_and_add_retention_policies.py:88-121 | succeeds if and only if every request has a route its indexes take, a duration that parses and fits an integer, and a key that fits one; then exactly the requests seen by the INSERT move, converted column by column, the new sequence is above all of them, and of all rows exactly the requests committed between INSERT and DELETE are lost; otherwise everything rolls back |
| LogMigration.StoppingRequests | alembic/versions/9c3d4e5f6a7b_separate_access_logs_and_add_retention_policies.py:95-113 | concrete requests of each kind that stop the migration |
| Slugs.SecondReplaceIsIdle | alembic/versions/6f4d2b8c1a90_expand_tags_for_taxonomy_and_spreadsheets.py:45-50 | the dash-collapsing replacement is the identity on what the first replacement produces |
| Slugs.SlugIsNormal | alembic/versions/6f4d2b8c1a90_expand_tags_for_taxonomy_and_spreadsheets.py:40-62 | every slug of a row with a positive id has the form `[a-z0-9]+(-[a-z0-9]+)*` |
| Slugs.FixedPointsAreNormal | alembic/versions/8a2d4f1c6b77_expand_glossary_for_taxonomy_and_spreadsheets.py:38-60 | a name is its own slug if and only if it has that form, and slugging is idempotent |
| Slugs.SlugsDifferIff | alembic/versions/6f4d2b8c1a90_expand_tags_for_taxonomy_and_spreadsheets.py:40-64 | the slugs of rows with different ids differ if and only if no two names come down to the same text that is not empty, and none to the stand-in of a row whose name comes down to nothing |
| Slugs.StandInCollides | alembic/versions/6f4d2b8c1a90_expand_tags_for_taxonomy_and_spreadsheets.py:40-64 | a named and a nameless tag with the same slug |
| Slugs.NamedTable.Upgrade | alembic/versions/8a2d4f1c6b77_expand_glossary_for_taxonomy_and_spreadsheets.py:38-62 | the three statements give every row its slug and change nothing else, and the unique constraint then holds exactly under those conditions; otherwise everything rolls back |

## Left out

- Spark, JDBC, SQLAlchemy and the file system: a table is a sequence of rows, a commit an append, a read of another table a function that may fail.
- IEEE floating point: lengths, sums and scores are exact reals, so the last printed digit of a coordinate or percentage can differ on ties.
- Library functions: the regex engine (a pattern it refuses is taken to raise whatever the rows are), casts between numbers and texts, `str` and `float` of Python, `to_timestamp` and the clock are parameters.
- Literals other than NULL, numbers, texts and booleans; structured columns (so a reference of several parts finds nothing); two array columns of different elements compared with each other; keys whose columns have other kinds on the two sides; and bounds of `between` for columns without a mean, which the profiler never suggests.
- Which of several faults of one rule is reported: error messages are abridged, and faults are taken in the order of the conditions.
- Tables with a column named like the executor's own working columns (`__dq_duplicate_count`, `source_value` and the like).
- Tolerances that are not numbers, and other malformed rule JSON beyond missing fields.
- The preview rows of a failed reconciliation.
- Case mapping of letters outside ASCII, in column names and operators' texts; slugs only ever map ASCII.
- `page_number` beyond counting, and the DOCX and Markdown renderings.
- PdfContent.ContentReadsBack: of lines written out as they stand it asks that they are ASCII, without strings and names, and end in an operator, as those of the cover do; they read as they would by themselves.
- A general PDF reader: the one here knows the delimiters, keys and end-of-line conventions these files use, and takes the first occurrence of a key in a dictionary.
- PdfRoundTrip.DocumentReadsBack: requires a file below ten billion bytes, because a cross-reference entry has ten digits for a position; the same bound stands in `PdfManual`.
- `RunHistorySeeder` keeps only the runs of the listed rules, which is what the source counts; the job-run loop repeats the same scheme and is not modelled again.
- `_build_scale_rule_rows`, value masking, pattern detection, quantiles, outliers and sensitive-name tables: lookups and statistics.
- The limit of a key column's own integer type, sequences with CYCLE, identity columns and columns that own several sequences, names with capital letters (which PostgreSQL folds when it looks a table up) or beyond 63 characters (which it cuts), and inserts with explicit ids after an alignment.
- PkSchema.KeySchema.AlignAll: says only that no id changes when it raises, because setting a sequence is not undone by a rollback while creating one is.
- The length of the slug column, and names and schemas of the seeded tables, which snapshot rows copy.
- `_parse_json_list`, queries and progress messages of the datasource scan.
- Suggestions.SuggestionsAreExecutable: says nothing about how many rows an `in_list` suggestion flags, because its values are masked.
