# pdf-grep, modelled in Dafny

`pdf-grep.py` searches PDF documents for a regular expression and shows the
matching lines in a pager. This project models its deterministic core and
proves properties of that model:

- **The argument classifier.** This is `processParams` with `setSearchPattern`
  and `setNotMask`.
  - `Params.Step` is one pass of the loop body and `Params.Run` the whole loop,
    over the value `ParseState`. That value holds the script's globals: the
    files, the pattern, the mask, the case flag and the two "expect next"
    latches.
  - The class `Params.ArgParser` keeps the same state in fields. Its
    `ProcessParams` method runs the loop and is proved to agree with `Run`.
  - Leaving the program becomes a value: `Help` for `-h`, or `Error(cause)`
    for `errorExit`.
- **Building the file set** (`FileSets`). These are:
  - `dirPDFs` (the method `DirPdfs`);
  - `filterList` (the method `FilterList`);
  - `sortList`, a stable sort by an injected collation key;
  - `normalizeFileList`.
- **Validation.** `checkParams` gives its three causes in the script's order.
- **Search and aggregation** (`Search`).
  - `positionLabel` computes a truncated whole percentage padded to width 2.
  - `SearchInText` and `DoSearch` are loops. They are proved equal to the
    specification functions `Scan` and `Collect`.
  - The properties the script relies on are proved about those functions.
- **The report text** (`Report`). This is the text `writeHeader`,
  `writeFileHeader` and `processResult` write into the temporary file. It is
  modelled as the string that would be written.
  - The report is proved to be the total header followed by each found
    entry's file header and rendered lines, in order.
  - The total header is proved to read back as the two totals.
  - Each summary line is proved to end in a counts part that reads back as
    the entry's hits and number of lines.
  - The entry's name and directory are not read back.
- **The whole run** (`PdfGrep`). `Script` chains the pieces as the `__main__`
  block does. `RunScript` does the same with the stateful parser
  (`ArgParser.ProcessParams`, which calls `DirPdfs`), `FilterList`,
  `SearchInText` and `DoSearch`.

The script's dependencies are parameters:

- **The file system** is a set of regular-file paths plus a map from each
  directory to its entries in listing order. `isfile`, `isdir` and `listdir`
  become lookups in it.
- **The collation key** is a function `key`, which stands for
  `locale.strxfrm` under `cs_CZ.UTF-8`. Its results are compared as Python
  compares strings.
- **The text extractor** is a function `extract` from a path to its lines. It
  stands for `pdftotext … -` followed by `splitlines()`.
- **The regular-expression engine** is one of two functions:
  - `count`, the number of `findall` results on a line;
  - `matches(pattern, ignoreCase, line)` at the top level.

Path handling follows `posixpath` (`basename`, `dirname`, `join`). Those
functions are modelled in `Paths`.

Where the help text or the usual reading of the tool differ from the code, the
model follows the code:

- `sortList` sorts the full paths, not the base names.
- An explicitly named file is searched whatever its extension. Only directory
  entries are filtered by the `.pdf` suffix.
- A directory contributes only its own entries. It is not searched
  recursively.
- The total header always says "lines". A file header makes "hit" and "line"
  singular at exactly one.
- A later `-p x` silently replaces an earlier pattern.
- A trailing `-p` or `not` is not an error.
- The "only once" rule for `not` tests the mask for truthiness. A second
  `not` therefore re-arms the latch after an empty mask was given.

## Model

| member | source | states |
|---|---|---|
| Params.PatternUpdate | pdf-grep.py:96-102 | a token becomes the pattern and disarms the pattern latch exactly when it is non-empty; an empty token fails with "Cannot search for an empty pattern." |
| Params.MaskUpdate | pdf-grep.py:90-93 | `setNotMask`: the token becomes the mask and the mask latch is disarmed; what it means for the loop is stated by LatchTakesNextToken and NotSetsMask |
| Params.Positional | pdf-grep.py:124-127 | the last four branches of the loop body; their cases are stated by PathTokens and LeftoverTokens |
| Params.Step | pdf-grep.py:117-127 | one pass of the loop body; its cases are stated by LatchTakesNextToken, NotSetsMask, NotAfterMask, PathTokens, LeftoverTokens and HelpFirst |
| Params.Run | pdf-grep.py:115-127 | the whole loop, stopping at the first exit; specified by RunAppend, RunKeepsOneLatch, MaskSetOnce, TrailingMarker and RunCollectsFiles |
| Params.RunAppend | pdf-grep.py:115-127 | running over `a + b` is running over `a` and then, unless the program was left, over `b` from the state reached |
| Params.RunKeepsOneLatch | pdf-grep.py:115-123 | starting with at most one latch armed, at most one is armed after any run of the loop |
| Params.LatchTakesNextToken | pdf-grep.py:90-119 | an armed pattern latch hands the next token, whatever it is, to `setSearchPattern`; otherwise an armed mask latch makes it the mask; the pattern latch is served first |
| Params.ExplicitPattern | pdf-grep.py:96-121 | `-p x` with no latch armed makes a non-empty `x` the pattern even when one was set, continuing with the rest; an empty `x` fails |
| Params.NotSetsMask | pdf-grep.py:90-123 | while no non-empty mask is set, `not m` sets the mask to `m` (even `-h`, `-p` or a path) and continues with the rest |
| Params.NotAfterMask | pdf-grep.py:123-127 | once a non-empty mask is set, `not` falls through to the file, directory and pattern rules |
| Params.MaskSetOnce | pdf-grep.py:119-123 | a non-empty mask is never replaced by any later token |
| Params.LeftoverTokens | pdf-grep.py:96-127 | a token that is no flag, not the live keyword and no existing path becomes the first pattern, fails as empty, or fails as "Unrecognized parameter" once a pattern is set |
| Params.Unrecognized | pdf-grep.py:127 | the cause "Unrecognized parameter '…'." around the token; LeftoverTokens states when it is given |
| Params.PathTokens | pdf-grep.py:124-125 | an existing file is appended as given with no name check; otherwise an existing directory appends its PDF files |
| Params.TrailingMarker | pdf-grep.py:121-123 | a trailing `-p`, or a trailing `not` while no mask is set, ends the loop normally with its latch armed |
| Params.RunCollectsFiles | pdf-grep.py:105-125 | the file list only grows, and every path added is an existing regular file |
| Params.ArgParser.constructor | pdf-grep.py:81-87 | the fields start as the globals are initialised |
| Params.ArgParser.SetNotMask | pdf-grep.py:90-93 | the new state is the old one with the mask set and the mask latch disarmed |
| Params.ArgParser.SetSearchPattern | pdf-grep.py:96-102 | the new state, or the exit, is exactly what `PatternUpdate` gives |
| Params.ArgParser.ProcessParams | pdf-grep.py:115-127 | the loop over the fields stops where `Run` leaves the program, with that exit, or ends in the state `Run` computes |
| Params.CheckParams | pdf-grep.py:158-164 | no error exactly when the pattern is non-empty and single-line and the file list is non-empty; otherwise the first failing cause in the order "Search for what?", multiline, "Search where?" |
| FileSets.PdfNameIff | pdf-grep.py:109-110 | an entry name qualifies iff it has at least four characters ending in '.', 'p'/'P', 'd'/'D', 'f'/'F' |
| FileSets.IsPdfName | pdf-grep.py:109-110 | the name test of `dirPDFs`; PdfNameIff spells it out character by character |
| FileSets.DirPdfs | pdf-grep.py:105-112 | the loop returns the join of each entry that is a regular file with a PDF name, in listing order |
| FileSets.PdfsOf | pdf-grep.py:105-112 | the PDF files of a directory; specified by PdfsOfMembers and computed by DirPdfs |
| FileSets.PdfsOfMembers | pdf-grep.py:105-112 | a path is in a directory's PDF list iff it is the join of one of that directory's own entries that is a regular file with a PDF name |
| FileSets.MaskKeepsIff | pdf-grep.py:131-135 | a path is kept iff the mask is not a prefix of its base name (case-sensitive) |
| FileSets.MaskSet | pdf-grep.py:123 | the truthiness of `NOT_IN`, also tested at line 150: a mask is given and non-empty; NotSetsMask, NotAfterMask, MaskSetOnce and NormalizeFileListSpec use it |
| FileSets.MaskKeeps | pdf-grep.py:131-135 | the test of `filterList`; MaskKeepsIff states it as "the mask is not a prefix of the base name" |
| FileSets.FilterList | pdf-grep.py:130-136 | the loop returns, in order, the paths the mask keeps |
| FileSets.KeptByMask | pdf-grep.py:130-136 | the paths the mask keeps; specified by KeptByMaskSpec and computed by FilterList |
| FileSets.KeptByMaskSpec | pdf-grep.py:130-136 | filtering distributes over concatenation, so it keeps order; a path is in the result iff it is in the input and the mask does not prefix its base name |
| FileSets.InsertSpec | pdf-grep.py:142 | inserting into a key-sorted list keeps it sorted and adds exactly that element |
| FileSets.Insert | pdf-grep.py:142 | one insertion step of the sort; specified by InsertSpec |
| FileSets.SortList | pdf-grep.py:139-144 | `sortList` by the injected key; specified by SortListSpec |
| FileSets.NormalizeFileList | pdf-grep.py:147-151 | `normalizeFileList`; specified by NormalizeFileListSpec |
| FileSets.SortListSpec | pdf-grep.py:139-144 | the result is ordered by the collation key and is a permutation of the input |
| FileSets.NormalizeFileListSpec | pdf-grep.py:147-151 | the result is sorted by key and duplicate-free; it holds exactly the input paths that survive the mask, each once; the mask applies only when it is non-empty |
| Search.PercentBelow100 | pdf-grep.py:168 | for an index inside the text, the percentage is at most 99 |
| Search.Percent | pdf-grep.py:168 | the truncated percentage of the index in the text; PercentBelow100 and PercentMonotone state its range and order |
| Search.PositionLabel | pdf-grep.py:167-169 | `positionLabel`; specified by LabelRoundTrip, FirstLabel and LabelsNonDecreasing |
| Search.PercentMonotone | pdf-grep.py:168 | the percentage never decreases as the index grows |
| Search.LabelRoundTrip | pdf-grep.py:167-169 | the label reads back as the percentage; inside the text it is six characters and the value lies in 0..99 |
| Search.FirstLabel | pdf-grep.py:167-169 | the first line is labelled "( 0%) " |
| Search.LabelsNonDecreasing | pdf-grep.py:167-169 | labels of later lines never read back smaller |
| Search.SearchInText | pdf-grep.py:172-180 | the loop result equals `Scan` over all lines |
| Search.Scan | pdf-grep.py:172-180 | what `searchInText` gathers over the first lines; specified by ScanHit, ScanMiss, ScanRendersHits and ScanCounts |
| Search.RenderLine | pdf-grep.py:179 | a matching line behind its position label; ScanRendersHits states that the rendered lines are exactly these |
| Search.ScanHit | pdf-grep.py:177-179 | a matching line adds its count to the hits and its rendering to the lines |
| Search.ScanMiss | pdf-grep.py:177 | a line with no match changes nothing |
| Search.HitIndicesSpec | pdf-grep.py:174-179 | the recorded indices are strictly increasing, below the scanned prefix, and hold a line exactly when it matches |
| Search.ScanRendersHits | pdf-grep.py:179 | the rendered lines are, in order, the label plus the text of exactly the matching lines |
| Search.HitIndicesCounted | pdf-grep.py:178-179 | no more lines are rendered than there are matches, and none exactly when there are no matches |
| Search.ScanCounts | pdf-grep.py:172-180 | a file's lines never exceed its hits, and it has lines exactly when it has hits |
| Search.SearchedConsistent | pdf-grep.py:186-193 | every per-file entry is consistent in that sense |
| Search.CollectStep | pdf-grep.py:185-193 | one more file extends the accumulated result by that file's entry |
| Search.Searched | pdf-grep.py:186-193 | the entry recorded for one file; specified by SearchedConsistent |
| Search.Extend | pdf-grep.py:187-193 | one file's step of `doSearch`; used by CollectStep and DoSearchStep |
| Search.Collect | pdf-grep.py:183-194 | what `doSearch` accumulates; specified by CollectFound, CollectSums, CollectTotals and SearchSpec |
| Search.DoSearchStep | pdf-grep.py:185-193 | each file's entry is consistent and extends, by `Extend`, what the earlier files accumulated |
| Search.DoSearch | pdf-grep.py:183-194 | the loop result equals `Collect` of the per-file entries, with lines never above the total |
| Search.CollectFound | pdf-grep.py:188-193 | `found` is exactly the entries with hits, in file-list order |
| Search.CollectSums | pdf-grep.py:187-189 | the total is the sum of the hits of `found`; the line count is the sum of their line counts |
| Search.CollectTotals | pdf-grep.py:184-194 | with consistent entries: the two sums, lines at most total, and every found entry has between one line and its hit count |
| Search.SearchSpec | pdf-grep.py:183-194 | over a file list: zero-hit files are omitted, the order is kept, the totals are the sums, and lines never exceed the total |
| Report.TotalHeaderRoundTrip | pdf-grep.py:205-209 | the total header reads back as its two counts |
| Report.TotalHeader | pdf-grep.py:205-209 | `writeHeader`; specified by TotalHeaderRoundTrip, TotalHeaderOmitsLines and TotalHeaderNewlines |
| Report.TotalHeaderOmitsLines | pdf-grep.py:206-209 | the " in L lines" part is dropped exactly when the total equals the line count |
| Report.Plural | pdf-grep.py:217-220 | the word as given ("hit", "line") exactly for a count of one, otherwise the word with an "s" |
| Report.DirLabel | pdf-grep.py:221-222 | the label is empty exactly when the directory is; otherwise it is four characters longer than the directory, starts with " [", ends with "/]" and holds the directory in between |
| Report.CountsRoundTrip | pdf-grep.py:223-227 | the counts part of a file header reads back as hits and line count |
| Report.Delimiter | pdf-grep.py:212 | `DELIMITER`; DelimiterNewlines states its two newlines |
| Report.SummaryCounts | pdf-grep.py:223-227 | the counts part of a file header; specified by CountsRoundTrip and CountsOmitLines |
| Report.SummaryLine | pdf-grep.py:224-227 | the summary line of `writeFileHeader`; specified by SummaryLineCounts |
| Report.SummaryLineCounts | pdf-grep.py:223-227 | a summary line is "*** ", the name, the directory label and ": ", then a counts part that reads back as the entry's hits and number of lines |
| Report.FileHeader | pdf-grep.py:215-227 | `writeFileHeader`; FileHeaderNewlines and SummaryLineCounts state its shape |
| Report.Body | pdf-grep.py:235 | the rendered lines, each with a newline; BodyNewlines counts them |
| Report.Sections | pdf-grep.py:233-235 | the loop of `processResult`; SectionsAppend, ReportSections and SectionsNewlines state its shape |
| Report.SectionsAppend | pdf-grep.py:233-235 | the sections of `a + b` are those of `a` followed by those of `b` |
| Report.ReportText | pdf-grep.py:230-236 | what `processResult` writes; ReportSections, ReportOpensWithTotals and ReportNewlines state its shape |
| Report.ReportSections | pdf-grep.py:230-236 | the report is the total header, then the sections before entry `j`, entry `j`'s file header and rendered lines, and the sections after it |
| Report.CountsOmitLines | pdf-grep.py:223-227 | the "in N line(s)" part is dropped exactly when hits equal the number of lines |
| Report.ReportOutput | pdf-grep.py:252-253 | a report is written exactly when the total is non-zero |
| Report.ReportOpensWithTotals | pdf-grep.py:230-232 | the report opens with the total header, which reads back as the totals |
| Report.FileHeaderNewlines | pdf-grep.py:212-227 | with single-line name and directory, a file header holds four newlines |
| Report.BodyNewlines | pdf-grep.py:235 | the body of single-line rendered lines holds one newline per line |
| Report.SectionsNewlines | pdf-grep.py:233-235 | the sections hold four newlines per entry plus one per rendered line |
| Report.TotalHeaderNewlines | pdf-grep.py:205-209 | the total header is one line |
| Report.ReportNewlines | pdf-grep.py:230-236 | the report holds one header line, then four lines per entry and one per rendered line |
| PdfGrep.Diagnostic | pdf-grep.py:71-73 | the message line is the cause followed by " Exiting now!" |
| PdfGrep.ExitStatus | pdf-grep.py:71-78 | status 1 exactly for an error, 0 otherwise (help or a finished search) |
| PdfGrep.RunScript | pdf-grep.py:247-254 | parsing with the class, normalising, checking and searching with the loop methods gives the outcome `Script` defines |
| PdfGrep.Script | pdf-grep.py:247-254 | the `__main__` block as a function; specified by OutcomeBeforeSearch, HelpFirst, SearchedFiles and ReportWhenHits, and computed by RunScript |
| PdfGrep.OutcomeBeforeSearch | pdf-grep.py:247-251 | a run finishes a search exactly when the arguments parse, the pattern is usable and some file survives; otherwise the outcome does not depend on the documents or the regex engine |
| PdfGrep.HelpFirst | pdf-grep.py:120 | `-h` as the first argument shows the help whatever follows |
| PdfGrep.SearchedFiles | pdf-grep.py:248-251 | the searched files are existing regular files that survive the mask, each once, in collation order |
| PdfGrep.ReportWhenHits | pdf-grep.py:250-254 | a searching run finishes with the report of the collected result; there is a report iff some file matched, and it opens with the totals |
| Text.DecimalRoundTrip | pdf-grep.py:207 | `str(n)`/`%d` digits denote `n` |
| Text.DecimalString | pdf-grep.py:207-209 | `str(n)` and `%d`: a non-empty string of digits, one digit below 10 and two below 100; DecimalRoundTrip and ReadDecimal state that it reads back as `n` |
| Text.ReadDecimal | pdf-grep.py:207 | a decimal rendering followed by a non-digit reads back as the number and the rest |
| Text.PadLeft | pdf-grep.py:169 | right justification as in `%2d`: the result is as wide as the width or the text, whichever is wider, with the text at the end and spaces before it |
| Text.LowerString | pdf-grep.py:110 | `lower()` maps each ASCII capital to its small letter and keeps every other character |
| Text.LexLeTotal | pdf-grep.py:142 | the string order used on collation keys is total |
| Text.LexLe | pdf-grep.py:142 | the string order `sorted` applies to the keys; LexLeTotal, LexLeTransitive and LexLeAntisymmetric state that it is a total order |
| Text.LexLeTransitive | pdf-grep.py:142 | that order is transitive |
| Text.LexLeAntisymmetric | pdf-grep.py:142 | that order is antisymmetric |
| Paths.Basename | pdf-grep.py:134 | the base name holds no '/', ends the path, and is preceded by '/' when shorter than the path |
| Paths.JoinEntry | pdf-grep.py:192-193 | a directory entry joined onto its directory has the entry as base name and the directory, less trailing slashes, as directory |
| Paths.Join | pdf-grep.py:108-111 | `os.path.join` of a directory and an entry; JoinIsPrefixed and JoinEntry state its shape |
| Paths.Dirname | pdf-grep.py:193 | `os.path.dirname`; JoinEntry states its value for a joined directory entry |
| Seqs.Dedup | pdf-grep.py:149 | de-duplication gives a duplicate-free list with the same elements |
| Seqs.FilterMembers | pdf-grep.py:133-135 | an element survives a filter iff it was in the input and passes the test |
| Seqs.MapMembers | pdf-grep.py:111 | an element is in a mapped list iff it is the image of an input element |
| Seqs.DistinctIffSingleOccurrences | pdf-grep.py:149 | duplicate-free is the same as every element occurring exactly once |

## Left out

- The `pdftotext` subprocess is the injected `extract` function. A failure of it (`check_output` raising) is not modelled.
- The `less` pager (`showOutput`) is not modelled. Neither is its `-I` flag or its search prompt: this is process and terminal glue.
- The temporary file in `/dev/shm` is not modelled: not its creation, its "already exists"/"couldn't create" errors, its writing or its removal. Only the text that would be written (`ReportText`) is modelled.
- The `cs_CZ.UTF-8` locale and `strxfrm` are the injected `key`. Saving and restoring the locale is not modelled.
- FileSets.SortList: the model assumes `cs_CZ.UTF-8` is installed. Where it is not, `setlocale` raises an exception in `normalizeFileList`, before `checkParams` runs, so the script ends with a traceback and status 1. That exception is not modelled: the model goes on to `checkParams`, for example to `Failure("Search for what?")` when no arguments are given.
- The regular-expression engine (`re.compile`, `findall`) is the injected match count. A pattern that fails to compile is not modelled.
- UTF-8 decoding and encoding (`utf`, `encode('utf-8')`) is not modelled. Strings are sequences of already decoded characters.
- `os.listdir` failing on an unreadable directory is not modelled.
- The help text itself and the process exit (`print`, `sys.exit`) are not modelled. They become the outcomes `ShowHelp` and `Failure`; `ExitStatus` and `Diagnostic` give the status and the message line.
- Search.PositionLabel: the label is computed with exact integer division, not the floating-point `100.0 * index / len(lines)`. This can differ only where float rounding crosses a whole number.
- Seqs.Dedup: `list(set(...))` has no specified order, and the model keeps first occurrences. Every property proved about the normalised list is independent of that order, since the list is sorted afterwards.
- FileSets.SortListSpec: states sortedness and permutation, not stability. Among paths with equal keys the order depends on the unspecified order of `set`.
- The case flag `IC_GREP` is modelled as a boolean, because the script only tests it for truthiness.
