# Rollover Daily Todos — a Dafny model of the rollover core

This project models the core of the Obsidian plugin "Rollover Daily Todos"
(`src/index.js`). When today's daily note is created, the plugin does the following:

- It picks the previous daily note: the second newest note dated today or earlier.
- It collects the unfinished checkbox items (`- [ ] …`) from that note. There are two ways to do this. The flat extractor takes every match of one regular expression. The block extractor takes each todo line together with the more deeply indented lines and blank lines under it.
- If asked, it drops empty todos.
- It inserts the rest into today's note. They go right after a chosen template heading, or at the end of the note.
- If asked, it removes the extracted lines from the previous note.
- It shows a summary notice and records an undo snapshot.
- An undo command is available for two minutes afterwards.

The model is pure and functional. Reading and writing notes, the clock and
date parsing become parameters. The rollover itself is one function,
`RolloverTodos.Rollover`, with three inputs: the text of the previous note,
the text of today's note and the settings. It returns what would be written back, the
counters, the notice and the undo snapshot.

JavaScript semantics are written out where they matter:

- `\s` and `trim`/`trimEnd` use the full ECMAScript set of white space and line terminators.
- `.` excludes `\n`, `\r`, U+2028 and U+2029.
- `matchAll` reports the leftmost non-overlapping matches.
- `String.prototype.replace` with a string pattern interprets `$$`, `$&`, `` $` `` and `$'` in its replacement.
- A notice's length is counted in UTF-16 code units.
- moment's `diff(…, 'seconds')` truncates toward zero.
- `Array.prototype.sort` is modelled as a stable sort.

Modules, one per component of `src/index.js`:

| module | component |
|---|---|
| `JsText` | the string primitives used: trimming, `split`/`join`, `indexOf`, UTF-16 length, decimal rendering |
| `TodoPattern` | the regular expressions `(\t*)[-*]\s\[ \]\s.*`, `^---*.*$` and `^\s*\n?$` |
| `FlatExtract` | `getAllUnfinishedTodos` |
| `BlockExtract` | `handleUnfinishedTodosWithBlocks`: the loop as written, plus a segmentation reference it is proved equal to |
| `EmptyFilter` | the `removeEmptyTodos` filter and its counters |
| `Merge` | the insertion into today's note, as written and in a corrected form |
| `Prune` | the backward `splice` loop over yesterday's lines |
| `Summary` | the notice text and its duration |
| `Undo` | the undo command's availability check |
| `LastNote` | `getLastDailyNote` |
| `RolloverTodos` | `rollover` composed from the above, with the settings and their defaults |

Where the code and the plugin's documented behaviour differ, the model follows the code:

- A frontmatter delimiter is a line that starts with two dashes (`^---*.*$`), not only `---`. The rest of the line must hold no line terminator, because the pattern has no `m` flag and `.` stops at one. So `"---\r"`, the delimiter of a note with CRLF line ends, is not a delimiter (`TodoPattern.IsFrontmatterDelimiter`).
- Yesterday's note is rewritten whenever `deleteOnComplete` is set, even when no line of it is removed.
- The second empty spelling `- [  ]` can never be filtered out. Every extracted item starts with `[ ]` (one space), and `EmptyFilter.DoubleSpaceSpellingUnreachable` proves this.
- The flat extractor starts a match at the tabs before the marker, so text before it on the line is dropped. A todo indented with spaces, or placed mid-line, is rolled over without what precedes it. Pruning compares whole lines, so such a line then stays in yesterday's note (`Prune.SpaceIndentedTodoStays`).
- A block with more than one line is never found among yesterday's lines, so with sub-content on, such a block is never pruned (`Prune.MultiLineItemsAreNeverPruned`).
- `\s.*` after the checkbox can match a newline. So `- [ ]` at the end of a line swallows the next line (`FlatExtract.BareCheckboxSwallowsNextLine`). At the very end of the note it is not matched at all (`FlatExtract.BareCheckboxAtEndIsMissed`).

## Model

| member | source | states |
|---|---|---|
| `JsText.TrimEndSpec` | src/index.js:132 | `trimEnd` returns a prefix of its input that does not end in white space, and everything it removed is white space |
| `JsText.TrimEndIdempotent` | src/index.js:132 | trimming the end twice is the same as trimming once |
| `JsText.TrimStartSpec` | src/index.js:260 | the leading half of `trim` removes exactly the maximal white-space prefix |
| `JsText.Lines` | src/index.js:96 | `split("\n")` yields at least one piece and no piece contains a newline |
| `JsText.JoinLines` | src/index.js:317 | joining the pieces of `split("\n")` with `"\n"` gives the text back |
| `JsText.LinesJoin` | src/index.js:309 | splitting a newline-join of newline-free lines gives the lines back |
| `JsText.IndexOf` | src/index.js:286 | the search reports the first index where the pattern occurs, or none when it occurs nowhere |
| `JsText.Utf16Length` | src/index.js:339 | a string's UTF-16 length lies between its code-point count and twice that, and equals the count without astral characters |
| `JsText.NatToStringRoundTrip` | src/index.js:322 | the decimal rendering of a count reads back as the same count |
| `TodoPattern.TabRun` | src/index.js:103 | the indentation level is the length of the maximal run of tabs at a position |
| `TodoPattern.LineEnd` | src/index.js:161 | `.*` stops at the first line terminator or at the end of the text |
| `TodoPattern.MatchEndIsLongestMatch` | src/index.js:161-162 | at a position the todo pattern matches exactly the longest word of its language, and matches nothing when no prefix is in it |
| `TodoPattern.TodoLineIffPrefixInLanguage` | src/index.js:105 | the anchored todo test accepts a line iff some prefix of it is in the pattern's language |
| `TodoPattern.TodoLineHasCheckbox` | src/index.js:105 | every todo line starts with tabs, a marker, white space and `[ ]`, followed by at least one more character |
| `TodoPattern.DelimiterIsNotTodo` | src/index.js:105-106 | no line is both a frontmatter delimiter and a todo line |
| `TodoPattern.CheckboxPrefixSurvivesTrimEnd` | src/index.js:132 | trimming the end of a block keeps its leading checkbox |
| `FlatExtract.Spans` | src/index.js:161-162 | every reported span is a match of the pattern at or after the search start, and spans do not overlap and appear in order |
| `FlatExtract.SpansCoverEveryMatch` | src/index.js:162 | every position where the pattern matches lies inside a reported span, so no match is skipped |
| `FlatExtract.SpansUnique` | src/index.js:162 | any list of ordered, non-overlapping matches that covers every match position is exactly the list `matchAll` reports |
| `FlatExtract.FlatTodos` | src/index.js:159-165 | the extracted todos are the texts, in order, of any list of ordered, non-overlapping matches that leaves no match start uncovered; each is a word of the todo pattern's language and starts with a checkbox |
| `FlatExtract.MidLineTodoDropsLeadingText` | src/index.js:161 | on `"  - [ ] a"` the extracted todo is `"- [ ] a"`, without the leading spaces |
| `FlatExtract.BareCheckboxSwallowsNextLine` | src/index.js:161 | on `"- [ ]\nnext"` the single todo extracted spans both lines |
| `FlatExtract.BareCheckboxAtEndIsMissed` | src/index.js:161 | a bare `- [ ]` at the end of the note is not extracted |
| `FlatExtract.DashAndStarInOrder` | src/index.js:161-164 | both markers are accepted and the todos come out in note order |
| `BlockExtract.AbsorbedRun` | src/index.js:120-127 | an open block absorbs the maximal run of leading lines that are deeper than its level or blank |
| `BlockExtract.FirstDelimiter` | src/index.js:113-117 | the frontmatter ends at the first later delimiter line, and it never ends when there is none |
| `BlockExtract.RunBodyIsSegmentation` | src/index.js:101-154 | past the frontmatter, the loop's result is what it already found followed by the segmentation of the remaining lines |
| `BlockExtract.RunFrontmatter` | src/index.js:109-118 | inside frontmatter the loop skips every line up to and including the closing delimiter and finds nothing if there is none |
| `BlockExtract.ExtractBlocksIsSegmentation` | src/index.js:93-157 | the loop as written computes the segmentation reference: each todo line opens a block that absorbs its run of deeper or blank lines, after frontmatter is skipped |
| `BlockExtract.ExtractBlocksWellFormed` | src/index.js:132-154 | every extracted block starts with a checkbox, and every block but the last has no trailing white space |
| `BlockExtract.NestedLinesStayWithTheirTodo` | src/index.js:120-127 | deeper-indented lines travel with the todo above them, and the last block keeps its newline |
| `BlockExtract.PlainLineEndsRegion` | src/index.js:131-139 | a line at the todo's level that is not a todo closes the block without opening another |
| `BlockExtract.FrontmatterTodosIgnored` | src/index.js:109-118 | todos inside the frontmatter are not extracted |
| `EmptyFilter.FilterFrom` | src/index.js:258-267 | the loop keeps exactly the non-empty items in order, and the two counters add up to the number of items seen |
| `EmptyFilter.FilterEmpties` | src/index.js:254-270 | without the setting everything is kept and counted as added; with it the carry is the non-empty items; added equals the carry's length and added plus removed equals the item count |
| `EmptyFilter.NonEmptyKeepsExactlyNonEmpty` | src/index.js:259-266 | an item is kept iff it is not empty, as often as it occurred and in its original order |
| `EmptyFilter.NonEmptyIdempotent` | src/index.js:259-266 | filtering a second time removes nothing more |
| `EmptyFilter.DoubleSpaceSpellingUnreachable` | src/index.js:261 | no extracted item trims to `- [  ]`, so an item is empty exactly when it trims to `- [ ]` |
| `EmptyFilter.FilterExample` | src/index.js:257-269 | of `- [ ]`, `- [ ] buy milk` and the string `- [  ]`, one is kept and two are counted as removed |
| `Merge.SubstituteLiteral` | src/index.js:286 | a replacement without `$` is inserted verbatim |
| `Merge.MergeIntoTodayAppends` | src/index.js:272-297 | as written: today's note is written iff there is something to carry; with no heading selected, or the heading absent, the block goes to the end, and the not-found notice appears exactly for an absent selected heading |
| `Merge.MergeLiteralInsertsBlock` | src/index.js:272-300 | corrected merge: today's note is written iff there is something to carry; the block is inserted right after the heading's first occurrence, or at the end when none is selected or it is absent; cutting the block out gives today's note back; the notice is non-empty iff a selected heading is absent |
| `Merge.LiteralReplaceInserts` | src/index.js:286-291 | replacing a found heading by itself plus a `$`-free block inserts the block after the heading and always changes the note |
| `Merge.MergeAgreesWithoutDollar` | src/index.js:285-297 | when neither heading nor todos contain `$`, the merge as written and the corrected merge give the same result |
| `Merge.DollarInTodoIsRewritten` | src/index.js:286 | heading `## T` and todo `- [ ] pay $$5`: as written the note gets `pay $5`, while the corrected merge keeps `pay $$5` |
| `Prune.SpliceOut` | src/index.js:309-315 | the backward splice loop leaves exactly the lines that are not among the extracted items, in order |
| `Prune.KeepKeepsExactlyOthers` | src/index.js:311-315 | a line survives iff it is not an extracted item, as often as it occurred and in its original order |
| `Prune.PruneIdempotent` | src/index.js:309-317 | pruning a pruned note with the same items changes nothing |
| `Prune.MultiLineItemsAreNeverPruned` | src/index.js:312 | items that span several lines never equal a line, so the note is rewritten unchanged |
| `Prune.SpaceIndentedTodoStays` | src/index.js:312 | the line `"  - [ ] a"` is not removed by pruning with the item `"- [ ] a"`, which is what the flat extractor makes of it (`FlatExtract.MidLineTodoDropsLeadingText`) |
| `Summary.NonBlank` | src/index.js:329-335 | exactly the non-empty parts are kept, each one of the given parts and every non-empty part, in their order |
| `Summary.MessageEmptyIff` | src/index.js:322-337 | the message is empty iff there is no not-found notice, nothing was added, and no removed empties are reported |
| `Summary.NoticeShownIffMessage` | src/index.js:338-340 | a notice is shown iff there is a not-found notice, an added todo, or removed empties while pruning; it carries the message and lasts 4000 ms plus 3 to 6 ms per character |
| `Summary.MessageLinesAreParts` | src/index.js:329-337 | splitting the message at newlines gives back exactly its non-empty parts |
| `Summary.AddedPartReadsBack` | src/index.js:322 | the number in the rolled-over part reads back as the added count |
| `Summary.EmptiesPartReadsBack` | src/index.js:323-324 | the number in the removed-empties part reads back as the removed count |
| `Summary.TwoTodosNotice` | src/index.js:322-339 | two todos rolled over with nothing else to report give `- 2 todos rolled over. ` shown for 4069 ms |
| `Undo.UndoWindowIsUnder121Seconds` | src/index.js:379-395 | undo is enabled iff there is history and fewer than 121000 ms have passed; the dialog opens iff enabled and not merely checking |
| `Undo.WholeSecondsTruncates` | src/index.js:384 | the whole-second difference truncates toward zero for both signs |
| `LastNote.Candidates` | src/index.js:75-86 | the candidates are exactly the notes in the daily folder whose date parses and is today or earlier, in vault order |
| `LastNote.SortIsOrderedPermutation` | src/index.js:89 | the sort orders newest first and is a permutation of its input |
| `LastNote.SortIsStable` | src/index.js:89 | notes with the same instant come out of the sort in their input order |
| `LastNote.LastDailyNoteIsSecondNewest` | src/index.js:70-91 | a note is chosen iff there are at least two candidates; it is the second in newest-first order, at most as new as the first and at least as new as every later one |
| `LastNote.FutureNotesIgnored` | src/index.js:79-86 | the chosen note is never dated after today |
| `RolloverTodos.AbortsIffNothingExtracted` | src/index.js:233-240 | the run stops without touching anything exactly when the selected extractor finds nothing |
| `RolloverTodos.TodayGetsTheCarriedTodos` | src/index.js:272-300 | today's note is written iff something is carried, and then it is today's note with the carried block inserted at the insertion point |
| `RolloverTodos.YesterdayLosesTheExtractedLines` | src/index.js:302-319 | yesterday's note is written iff `deleteOnComplete` is set, and then holds exactly its lines that were not extracted |
| `RolloverTodos.CountsAddUp` | src/index.js:255-339 | added plus removed equals the number extracted, nothing is removed without the setting, and a notice appears iff something was added, empties were removed while pruning, or a selected heading was missing |
| `RolloverTodos.UndoRecordsWhatWasOverwritten` | src/index.js:243-308 | the undo snapshot holds the old text of exactly the notes that are rewritten |
| `RolloverTodos.DefaultsAppendEverything` | src/index.js:46-52 | with the default settings every extracted todo is appended to the end of today's note, yesterday's note is untouched, and nothing is counted as removed |
| `RolloverTodos.JournalScenario` | src/index.js:177-343 | yesterday `# Journal\n- [ ] task A\n- [ ] task B\n` and today `# Journal\n` with the default settings: today's note becomes `# Journal\n\n- [ ] task A\n- [ ] task B`, yesterday's is not written, two todos are counted as added and none as removed |
| `RolloverTodos.JournalScenarioDeleting` | src/index.js:302-319 | the same notes with `deleteOnComplete`: yesterday's note becomes `# Journal\n` |

## Left out

- Host plumbing is not modelled: reading and writing notes through the vault, the event hooks and commands, `isDailyNotesEnabled`, logging and `debug`. They are I/O; the model receives the note texts and returns the writes.
- The validation gate of `rollover` (src/index.js:183-213) is not modelled: the checks that the file is today's daily note in the daily folder and was just created. It depends on the clock, the file system and the date format.
- The early return when there is no previous note (src/index.js:223-227) appears only as `LastNote.LastDailyNote` returning `None`. The composed `Rollover` takes the previous note's text as given.
- Line 178 logs `file.basename` before checking whether `file` is undefined, and line 190 does so inside the check for a missing file. When called without a file, `rollover` would therefore throw before anything else. This is host-side behaviour outside the pure core, so it is not modelled.
- Date parsing with moment and the daily-note format: each file carries an already parsed day and instant, or none when parsing fails. An unparsable date makes `isSameOrBefore` false, which the model represents as `None`.
- `Array.prototype.sort` is modelled as a stable insertion sort, `LastNote.SortNewestFirst`, proved stable by `LastNote.SortIsStable`. The ECMAScript standard has required a stable sort since 2019, but an engine's actual algorithm is not modelled.
- The notes are assumed not to change between the reads of one run. Yesterday's note is read twice: once by the extractor (src/index.js:94 or 160) and once more before pruning (src/index.js:304). Today's note is read once (src/index.js:277).
- `sortHeadersIntoHeirarchy` (src/index.js:167-175) is not modelled: its only call is commented out.
- The settings tab (src/ui/RolloverSettingTab.js) is not modelled; only the settings' values and defaults are. src/ui/UndoModal.js, which performs the restore, is not part of this model; only the undo availability check and the snapshot it restores from are modelled.
- The `prefix` setting offered by the settings tab (src/ui/RolloverSettingTab.js:80-88) is never read by `rollover`, so it is not modelled.
- Summary.NoticeShownIffMessage: bounds the duration between 3 and 6 ms per code point, rather than stating 3 ms per UTF-16 code unit. The exact value is `Summary.SummaryNotice`'s `4000 + 3 * Utf16Length(message)`.
- `RolloverTodos.Rollover` uses the corrected merge `Merge.MergeLiteral`, not the as-written `Merge.MergeIntoToday`. The two agree whenever no `$` appears (`Merge.MergeAgreesWithoutDollar`); see Findings.

## Findings

| source | as written | input that shows it | evidently intended | confidence | as-written member | corrected member |
|---|---|---|---|---|---|---|
| src/index.js:286 | `dailyNoteContent.replace(templateHeading, templateHeading + todos)` passes the todos as a replacement string, so `$$`, `$&`, `` $` `` and `$'` inside a todo or the heading are expanded | today `## T`, heading `## T`, todo `- [ ] pay $$5`: today's note becomes `## T\n- [ ] pay $5` | the todos are inserted verbatim after the heading (`## T\n- [ ] pay $$5`) | not executed | `Merge.DollarInTodoIsRewritten` (on `Merge.MergeIntoToday`) | `Merge.MergeLiteralInsertsBlock` (on `Merge.MergeLiteral`) |
