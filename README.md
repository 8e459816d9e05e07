# A verified model of the core of a church presentation app

The app projects song lyrics, scripture and media onto an output screen
during a service. This project models, in Dafny, the parts of it that are
pure string and list logic or small state machines, and proves what they
promise:

- **Scripture references.** `parseReference` turns text such as
  `1 John 2:5-7 nkjv` into book, chapter, verses, version and errors
  (`ReferenceParser`). The input box suggests books, chapters, verses and
  versions as the user types (`Autocomplete`). It also completes a book
  name inline, filters keystrokes and cycles through the suggestions
  (`ScriptureInput`).
- **Bible import.** A module is downloaded in chunks, unzipped or taken
  raw, then read as JSON or as one of two XML dialects. The result becomes
  version, book and verse rows that are committed in batches of 500 in one
  transaction against the local database (`ImportPipeline`,
  `ScriptureDb`).
- **Scripture lookup and slides.** The hook resolves the version, queries
  a chapter, filters to the verse range and sorts by verse. It also
  uninstalls versions and tracks the import in progress (`UseScripture`).
  Verses become slide text (`BibleSlides`).
- **Songs.** Lyrics become slides through the label, buffer and modifier
  reader (`Lyrics`). Slides are grouped into runs of one label, and the
  live slide is decoded from its id (`Selectors`). Labels map to colour
  classes (`Types`). The songs hook filters and selects songs (`UseSongs`).
- **Backend tables.** Services with their item lists (`Services`),
  categories (`Categories`) and the playback row of each organisation
  (`Playback`). Each table is a map from id to row. A mutation reads a row
  and patches the table.
- **Services hook.** The hook holds the selected service and item and
  resolves items to songs (`UseServices`).
- **Media folders.** Files are classified by extension. Per-item filters
  become CSS. Duplicate saved folders are cleaned up. Saved folders are
  classified by permission and removed folders are dropped (`Media`).

Pure code is modelled as functions with lemmas. A loop becomes a method with
invariants, proved equal to a specification function. An object or hook
whose state the source updates becomes a class with `modifies` clauses. A
regular expression becomes an explicit grammar: a matcher, plus a lemma
that the matcher accepts a text exactly when the text is the rendering of
a well-formed match. Calls into browser and library code are parameters:
`JSON.parse`, `DOMParser`, `TextDecoder`, unzip, permission queries and
the clock.

Where the code behaves in a way a reader may not expect, the model follows the code:

- A reference with zero verses is not an error.
- `importFile` passes the file name, but `processBibleBuffer` ignores it.
- `uninstallVersion` leaves the version's book rows in place.
- A label holding `pre-chorus` gets the chorus class, because `chorus` is
  tried first and occurs inside it.
- The lyrics reader never sets its pending modifier.
- The services hook calls `reorderServices`, which the services backend
  does not define, so the call fails.
- `reorderItems` with an out-of-range source index inserts an undefined
  entry. The model rejects that input as an error.
- The chapter placeholders for chapter `n` read as `n`, then `10n + 1`
  to `10n + 4`.

## Model

| member | source | states |
|---|---|---|
| Types.GetLabelColor | src/types/index.ts:88-110 | the class returned is always one of the table's classes |
| Types.FirstKey | src/types/index.ts:106-108 | the search stops at the first key, in declaration order, that occurs in the text, and no earlier key occurs |
| Types.FirstColorSpec | src/types/index.ts:106-109 | the loop returns the class of the first occurring key, or the default class when none occurs |
| Types.GetLabelColorSpec | src/types/index.ts:103-110 | a missing or empty label gets the default class; any other gets the class of the first key occurring in its lower-case form, else the default |
| Types.LabelColorIgnoresCase | src/types/index.ts:105 | labels equal up to ASCII case get the same class |
| Types.PreChorusShadowed | src/types/index.ts:90-107 | a label holding `pre-chorus` but not `verse` gets the chorus class, because `chorus` is tried first and occurs inside `pre-chorus` |
| Lyrics.SplitLines | src/lib/lyrics.ts:11 | splitting on `\r?\n` gives at least one line; no line holds a line feed; joined by line feeds the lines give back the text with each `\r\n` read as `\n` |
| Lyrics.ModifierOf | src/lib/lyrics.ts:8 | a line is a modifier exactly when it is `[`, a body of `x` then digits or digits then `x` in either letter case, and `]`; the modifier is that body |
| Lyrics.ModifierOfBracketed | src/lib/lyrics.ts:8 | every such body in brackets is read back as that modifier |
| Lyrics.FlushBuffer | src/lib/lyrics.ts:17-44 | the flush loop emits exactly the slide the buffer gives: the last line taken off as modifier if it is one, the lines trimmed at their ends, joined by line feeds and trimmed, nothing when that is empty |
| Lyrics.ParseLyricsToSlides | src/lib/lyrics.ts:10-81 | the imperative loop over the lines returns the same slides as the line-by-line reader definition |
| Lyrics.FlushedIsSlide | src/lib/lyrics.ts:17-44 | a flush of buffered content lines only emits a well-formed slide: text non-empty, trimmed, with no blank line; a modifier of the form `x3`/`3x` |
| Lyrics.ParseLyricsSlides | src/lib/lyrics.ts:10-81 | every slide of any input is well formed, with a label that is trimmed and capitalised |
| Lyrics.ReadSection | src/lib/lyrics.ts:57-68 | after any lines the current label is the one set by the last label line that is not a modifier line |
| Lyrics.StepSection | src/lib/lyrics.ts:46-77 | reading one more line only appends slides, each carrying the label of the last label line before it, and a label line leaves the buffer empty |
| Lyrics.LastFlushSection | src/lib/lyrics.ts:79 | the slides of the final flush carry the label of the last label line |
| Lyrics.NoLyricsNoSlides | src/lib/lyrics.ts:46-79 | lyrics made only of blank lines and label lines give no slide |
| Lyrics.FormatSlideLabel | src/lib/lyrics.ts:84-93 | the label is the 1-based number, then the label and the modifier, each only when non-empty, separated by single spaces |
| BibleSlides.GenerateBibleSlides | src/features/scripture/lib/slides.ts:9-21 | one slide per verse, in order, each the slide of that verse under the configured numbering |
| BibleSlides.VerseSlideShape | src/features/scripture/lib/slides.ts:11-19 | a slide starts with `<verse>. ` and the text, or the text alone when numbers are off; it ends with the bracketed reference, which closes with the upper-cased version exactly when the verse names one |
| BibleSlides.ConfigOnlyNumbering | src/features/scripture/lib/slides.ts:3-13 | the line limits never change the slides, and `inline` and `superscript` give the same text |
| Selectors.GetSlidesForGrid | src/lib/present/selectors.ts:3-13 | no entries without a song; otherwise one entry per slide, in order, holding the song, the slide and its position |
| Types.FindById | src/lib/present/selectors.ts:26 | the position found is that of the first row with the id, and no earlier row has it; it is the end of the list when no row has the id (the songs and services searches are its two instances) |
| Selectors.NumberOfNat | src/lib/present/selectors.ts:22 | `Number` reads a printed slide index back as that index |
| Selectors.ActiveSlideOfId | src/lib/present/selectors.ts:15-28 | the id `<song id>:<index>` of a slide gives that slide's text, when the song is the first with its id and the id holds no `:` |
| Selectors.ActiveSlideSpec | src/lib/present/selectors.ts:15-28 | no text without an id or without songs; a text found is that of slide `i` of the first song whose id is the part before the first `:`, where `i` is the number the part after it reads as |
| Selectors.LabelName | src/lib/present/selectors.ts:42 | a slide's group label is its own label when that is non-empty, and `Untitled` when it is missing or empty |
| Selectors.GetSlideGroups | src/lib/present/selectors.ts:33-53 | no groups without a song; otherwise the groups are runs (none empty, neighbours labelled differently) whose labels, each repeated by its count, are the slides' labels |
| Selectors.NewGroupStep | src/lib/present/selectors.ts:44-46 | a label unlike the last group's opens a new group of one, keeping the groups runs |
| Selectors.BumpStep | src/lib/present/selectors.ts:47-48 | the last group's label again makes that group one longer, keeping the groups runs |
| Selectors.ExpandLength | src/lib/present/selectors.ts:33-53 | the expanded labels are as many as the counts add up to |
| Selectors.GroupsCountSlides | src/lib/present/selectors.ts:33-53 | the counts of the groups add up to the number of slides |
| Selectors.LastGroup | src/lib/present/selectors.ts:33-53 | the last group is the trailing run of equal labels |
| Selectors.LastGroupsAgree | src/lib/present/selectors.ts:33-53 | runs with the same labels end in the same group, after the same labels |
| Selectors.RunsUnique | src/lib/present/selectors.ts:33-53 | two runs with the same labels are equal, so the groups are the run-length encoding of the labels |
| ReferenceParser.MatchSound | src/features/scripture/lib/parser.ts:27-28 | whatever the scanner returns for a text is a well-formed reading of the reference pattern that renders back to exactly that text |
| ReferenceParser.MatchComplete | src/features/scripture/lib/parser.ts:27-28 | every well-formed reading of the pattern is found by the scanner on its rendered text |
| ReferenceParser.MatchUnique | src/features/scripture/lib/parser.ts:27-28 | the scanner returns a reading exactly when that reading is well formed and renders to the text, so a text matches the pattern in at most one way |
| ReferenceParser.Readings | src/features/scripture/lib/parser.ts:27-33 | a text without a scan result has no reading at all, a scan result is a reading, and every reading is the scan result |
| ReferenceParser.FindBookIndex | src/features/scripture/lib/parser.ts:38-44 | the position found is the first book answering to the search by name, id or abbreviation in lower case; no earlier book answers |
| ReferenceParser.FindBook | src/features/scripture/lib/parser.ts:38-44 | no book is found exactly when no book answers to the search; a found book is the first that answers |
| ReferenceParser.BookErrors | src/features/scripture/lib/parser.ts:46-57 | at most one problem is reported for the book and chapter |
| ReferenceParser.RangeErrors | src/features/scripture/lib/parser.ts:65-70 | the end-verse problem is reported exactly when a non-zero start verse is set and the end verse is not greater than it; otherwise nothing is reported |
| ReferenceParser.Resolve | src/features/scripture/lib/parser.ts:35-77 | the book is the first one answering to the trimmed lower-cased book text, the chapter is the chapter digits' value, verses and version are present exactly when captured, an end verse only with a start verse, and the problems are the book problems followed by the range problem |
| ReferenceParser.ErrorsIff | src/features/scripture/lib/parser.ts:46-70 | the unknown-book problem appears exactly when no book was found, the chapter problem exactly when a found book's chapter range excludes the chapter, the range problem exactly under its condition; at most two problems, never both book problems, never the format problem |
| ReferenceParser.ResolveErrors | src/features/scripture/lib/parser.ts:46-70 | the same four facts stated for a resolved reading |
| ReferenceParser.VersionCodeCase | src/features/scripture/lib/parser.ts:73-75 | an upper-cased version code consists of capital letters and digits and has the same lower-case form as the code typed |
| ReferenceParser.ResolveVersion | src/features/scripture/lib/parser.ts:73-75 | the version code of a resolved reading is upper case, as long as the captured code and equal to it ignoring case |
| ReferenceParser.ParseReference | src/features/scripture/lib/parser.ts:21-78 | blank input gives the empty result, input whose trimmed text has no reading gives the format problem alone, and otherwise the result is the resolution of the one reading |
| ReferenceParser.InvalidFormatIff | src/features/scripture/lib/parser.ts:27-33 | for non-blank input, the format problem alone is reported exactly when the trimmed input has no reading |
| ReferenceParser.ParseErrors | src/features/scripture/lib/parser.ts:21-78 | a parse reports at most two problems, and never both an unknown book and a bad chapter |
| ReferenceParser.RenderTrimmed | src/features/scripture/lib/parser.ts:22 | a reading that does not begin with whitespace renders to a text trimming leaves as it is |
| ReferenceParser.ParseOfReading | src/features/scripture/lib/parser.ts:21-78 | parsing the rendered text of a well-formed reading gives that reading's resolution |
| ReferenceParser.ExampleEndBeforeStart | src/features/scripture/lib/parser.ts:65-70 | `1 John 2:5-3` against a book named `1 John` reports that the end verse must follow the start verse |
| Autocomplete.Tokenize | src/features/scripture/lib/autocomplete.ts:24-33 | the words after the book token are fewer than the words of the input |
| Autocomplete.TokenizeWords | src/features/scripture/lib/autocomplete.ts:24-33 | on words separated by single spaces the book token is the first word, or the first two joined by a space when the first is `1`, `2` or `3` and a second follows; the rest are the remaining words |
| Autocomplete.MatchBooks | src/features/scripture/lib/autocomplete.ts:35-40 | the matches are exactly the books whose lower-cased name, id or abbreviation starts with the typed token, and the first match is the first such book in the given order |
| Autocomplete.LexAsymmetric | src/features/scripture/lib/autocomplete.ts:50 | the name order never puts two names each before the other |
| Autocomplete.LexNotAfterTransitive | src/features/scripture/lib/autocomplete.ts:50 | not coming after is transitive in the name order |
| Autocomplete.LexTotal | src/features/scripture/lib/autocomplete.ts:50 | of two different names one comes before the other |
| Autocomplete.RankAsymmetric | src/features/scripture/lib/autocomplete.ts:45-51 | the comparator never ranks two names each before the other |
| Autocomplete.RankNotAfterTransitive | src/features/scripture/lib/autocomplete.ts:45-51 | not ranking after is transitive, so the comparator is a consistent order |
| Autocomplete.RankTotal | src/features/scripture/lib/autocomplete.ts:45-51 | of two different names one ranks before the other |
| Autocomplete.InsertSorted | src/features/scripture/lib/autocomplete.ts:45-51 | inserting a book into a ranked list keeps it ranked and adds exactly that book |
| Autocomplete.SortFacts | src/features/scripture/lib/autocomplete.ts:45-51 | the sorted matches are ranked by the comparator and are a permutation of the matches |
| Autocomplete.UniqueFacts | src/features/scripture/lib/autocomplete.ts:53-61 | the dedup keeps books of the input, in order, with every name of the input exactly once |
| Autocomplete.UniqueSorted | src/features/scripture/lib/autocomplete.ts:53-61 | deduplicating a ranked list leaves it ranked |
| Autocomplete.DedupByName | src/features/scripture/lib/autocomplete.ts:53-61 | the loop with its `seen` set keeps the first book of each name, in order |
| Autocomplete.Top5 | src/features/scripture/lib/autocomplete.ts:64 | at most five books, a prefix of the list, and the whole list when it has fewer than five |
| Autocomplete.AsBookSuggestions | src/features/scripture/lib/autocomplete.ts:65 | one book suggestion per book, in order, carrying the book's name |
| Autocomplete.RankedNames | src/features/scripture/lib/autocomplete.ts:45-61 | the sorted and deduplicated matches hold every matched name once, each ranking strictly before the next |
| Autocomplete.BookSuggestionsBest | src/features/scripture/lib/autocomplete.ts:43-66 | at most five book suggestions, all matched names, distinct, strictly ranked with prefix names first; any matched name left out ranks after every one offered, and fewer than five are offered only when every matched name is |
| Autocomplete.VerseSuggestions | src/features/scripture/lib/autocomplete.ts:82-85 | there are five verse placeholders |
| Autocomplete.ChapterSuggestions | src/features/scripture/lib/autocomplete.ts:91-94 | there are five chapter placeholders |
| Autocomplete.VersionSuggestions | src/features/scripture/lib/autocomplete.ts:102-104 | one version suggestion per version, in order: its text is the version's code (possibly missing) and its description the version's name |
| Autocomplete.GetSuggestions | src/features/scripture/lib/autocomplete.ts:11-107 | the step-by-step computation with its dedup loop returns what the case analysis below describes |
| Autocomplete.BlankInput | src/features/scripture/lib/autocomplete.ts:16-21 | input of whitespace only gives no suggestions |
| Autocomplete.WhileTypingBook | src/features/scripture/lib/autocomplete.ts:42-66 | with no word after the book token and no trailing space, the suggestions are the best book names for the lower-cased token |
| Autocomplete.PastBook | src/features/scripture/lib/autocomplete.ts:68-106 | past the book: nothing when no book matches; `<Book> 1` after a bare trailing space; five verse placeholders for a token with `:`; five chapter placeholders for a numeric token; the versions for another token followed by a space; otherwise nothing, where `<Book>` is the first matching book |
| Autocomplete.VerseSuggestionParses | src/features/scripture/lib/autocomplete.ts:82-85 | every verse placeholder parses back to its book, its chapter and verse `i + 1`, with no end verse and no version |
| Autocomplete.ChapterSuggestionParses | src/features/scripture/lib/autocomplete.ts:91-94 | the chapter placeholders for chapter `n` parse back to chapter `n`, then to `10n + i`, which is not the next chapter |
| Autocomplete.ChapterEndUnique | src/features/scripture/lib/autocomplete.ts:115-116 | the scanner finds a chapter-end reading exactly when it is well formed and renders to the text |
| Autocomplete.SmartTransformSpec | src/features/scripture/lib/autocomplete.ts:113-121 | `<book> <digits><one whitespace>` becomes `<trimmed book> <digits>:`, and text of no other shape is returned as it is |
| Autocomplete.NoTrailingSpaceKept | src/features/scripture/lib/autocomplete.ts:115 | text not ending in whitespace is never rewritten |
| Autocomplete.SmartTransformIdempotent | src/features/scripture/lib/autocomplete.ts:113-121 | rewriting twice is rewriting once |
| ScriptureInput.AllowedAfterBookValid | src/features/scripture/components/ScriptureInput.tsx:127-128 | once the book is typed, the characters let through are those `isValidCharacter` accepts, except `.` |
| ScriptureInput.CompletionSpec | src/features/scripture/components/ScriptureInput.tsx:97-122 | the book is completed exactly when some book the token prefixes exists, every such book bears one name, and that name and a space are longer than the text; the value is then that name and a space |
| ScriptureInput.NextValueSpec | src/features/scripture/components/ScriptureInput.tsx:85-135 | a change is rejected exactly when the text grew, is not blank, the book is typed and the last character is not allowed; completion applies only while the book is typed; every other accepted text is stored after the chapter rewrite |
| ScriptureInput.ResubmitStable | src/features/scripture/components/ScriptureInput.tsx:115-121 | handing the box the text it holds is never completed or rejected, and a rewritten text is stored as it is, so completion cannot loop |
| ScriptureInput.BookTypingDoneWords | src/features/scripture/components/ScriptureInput.tsx:91-95 | on words typed with single spaces the book is done exactly when more words follow than the book token takes, a trailing space counting as one more word |
| ScriptureInput.CycleDown | src/features/scripture/components/ScriptureInput.tsx:59 | ArrowDown moves the selection to the next suggestion, from the last back to the first |
| ScriptureInput.CycleUp | src/features/scripture/components/ScriptureInput.tsx:63 | ArrowUp moves the selection to the previous suggestion, from the first to the last |
| ScriptureInput.CycleInverse | src/features/scripture/components/ScriptureInput.tsx:59-63 | ArrowUp undoes ArrowDown and ArrowDown undoes ArrowUp |
| ScriptureInput.SearchBox.constructor | src/features/scripture/components/ScriptureInput.tsx:32-35 | the box starts empty, with no suggestions, the first selected and the list closed |
| ScriptureInput.SearchBox.UpdateSuggestions | src/features/scripture/components/ScriptureInput.tsx:46-51 | the suggestions become those of the text, the first is selected and the list is open exactly when there are any |
| ScriptureInput.SearchBox.HandleChange | src/features/scripture/components/ScriptureInput.tsx:85-135 | a rejected change leaves the box as it was; otherwise the decided value is stored with its suggestions |
| ScriptureInput.SearchBox.ApplySuggestion | src/features/scripture/components/ScriptureInput.tsx:78-83 | the suggestion's text becomes the value and its own suggestions are shown |
| ScriptureInput.SearchBox.HandleKeyDown | src/features/scripture/components/ScriptureInput.tsx:53-76 | with the list closed or another key nothing changes; the arrows move the selection cyclically; Enter and Tab apply the selected suggestion as `Choose` does, failing exactly when it has no text; Escape only closes the list |
| ScriptureInput.SearchBox.Choose | src/features/scripture/components/ScriptureInput.tsx:65-83 | a suggestion with text becomes the value and its suggestions are shown; one without text fails with `UndefinedValue`, closes the list and keeps the value and the suggestions |
| ScriptureDb.RowsNotOf | src/features/scripture/lib/import-pipeline.ts:226-227 | the books, or verses, left after deleting a version's rows are exactly the rows of other versions, unchanged |
| ScriptureDb.AddAllSpec | src/features/scripture/lib/import-pipeline.ts:230-236 | a bulk insert succeeds exactly when its keys are distinct and new to the table; the table then holds its old rows and every new row under its key, and no other key |
| ScriptureDb.AddAllStep | src/features/scripture/lib/import-pipeline.ts:230-236 | the bulk-insert facts carry over from a list to that list with one more row |
| ScriptureDb.ScriptureStore.constructor | src/features/scripture/lib/db.ts:30-42 | a new store has its three tables empty and every row keyed by its primary key |
| ImportPipeline.PercentBounds | src/features/scripture/lib/import-pipeline.ts:32 | a progress percentage lies within 0..100 and is 100 once all the work is done |
| ImportPipeline.PercentMonotonic | src/features/scripture/lib/import-pipeline.ts:32 | the percentage never goes down as the work done grows |
| ImportPipeline.FlattenLength | src/features/scripture/lib/import-pipeline.ts:36-41 | the joined buffer is as long as the chunks together |
| ImportPipeline.ReadAll | src/features/scripture/lib/import-pipeline.ts:18-41 | the buffer holds the chunks one after the other; with a non-zero total one download report per chunk gives the bytes received so far as a percentage of that total, and with no total or a zero total there is none |
| ImportPipeline.Concatenate | src/features/scripture/lib/import-pipeline.ts:36-41 | copying each chunk at the running offset gives a buffer equal to the chunks one after the other |
| ImportPipeline.PrefixLength | src/features/scripture/lib/import-pipeline.ts:36-41 | the chunks received so far are no longer than all of them, so each copy stays inside the buffer |
| ImportPipeline.FirstBibleEntry | src/features/scripture/lib/import-pipeline.ts:54-56 | the entry found is the first, in the archive's order, whose name ends in `.json` or `.xml` |
| ImportPipeline.ChooseFileSpec | src/features/scripture/lib/import-pipeline.ts:51-70 | a buffer that is not a zip, or a zip without a Bible file, is taken as the file itself, read as JSON exactly when its trimmed text starts with `{`; otherwise the file is the first Bible entry of the zip |
| ImportPipeline.OrElse | src/features/scripture/lib/import-pipeline.ts:88-89 | a JavaScript `or` of a string and a fallback gives the value when it is a non-empty string and the fallback otherwise |
| ImportPipeline.JsonVersionRow | src/features/scripture/lib/import-pipeline.ts:87-94 | the version row is named from the file or its name, and its code is copied from the file, never derived |
| ImportPipeline.JsonNaming | src/features/scripture/lib/import-pipeline.ts:80-104 | a JSON file with a verse list is accepted; the name is the file's non-empty version name, else the file stem with `_` and `-` as spaces; the id is the file's non-empty version id, else the lower-cased name with whitespace runs as `-`; every verse keeps its place and fields, with the key the version id, book id, chapter and verse joined by vertical bars and the version id unless the verse gives its own |
| ImportPipeline.DescendantsInOrder | src/features/scripture/lib/import-pipeline.ts:150-152 | the search below a node finds exactly the elements below it named by the tag, in document order |
| ImportPipeline.DocumentElementsInOrder | src/features/scripture/lib/import-pipeline.ts:150-152 | the search of a document finds exactly its elements named by the tag, the root included, in document order |
| ImportPipeline.FirstAttr | src/features/scripture/lib/import-pipeline.ts:116-121 | a chain of `getAttribute` alternatives gives nothing exactly when every one is missing or empty, and otherwise a non-empty value of one of them |
| ImportPipeline.BookId | src/features/scripture/lib/import-pipeline.ts:164 | the book id is the lower-cased name without whitespace, cut to at most 8 characters |
| ImportPipeline.ChapterRows | src/features/scripture/lib/import-pipeline.ts:183-197 | one row per verse element of a chapter, in order |
| ImportPipeline.ImportFromXml | src/features/scripture/lib/import-pipeline.ts:106-213 | the walk over books, chapters and verses with its running maximum gives the rows and parsing reports of the document |
| ImportPipeline.ReadBook | src/features/scripture/lib/import-pipeline.ts:155-207 | the chapter loop of one book yields that book's verse rows and its book row |
| ImportPipeline.ReadChapter | src/features/scripture/lib/import-pipeline.ts:179-197 | the verse loop of one chapter yields that chapter's rows |
| ImportPipeline.RunningMaxSpec | src/features/scripture/lib/import-pipeline.ts:166-176 | the running maximum is at least 0, no smaller than any chapter number, and is one of them unless it is 0 |
| ImportPipeline.MaxChapterSpec | src/features/scripture/lib/import-pipeline.ts:166-176 | a book's chapter count is the largest chapter number it holds, or 0 when none is above 0 |
| ImportPipeline.XmlVersionFacts | src/features/scripture/lib/import-pipeline.ts:113-148 | the XML version name is the root's first non-empty `name`, `title` or `n`, else the one made from the file name; the id is the lower-cased name with whitespace runs as `-`; the code is always given and upper case: the root's own, else the file stem of 2 to 5 characters, else at most the first three characters of the name |
| ImportPipeline.XmlVerseRowFacts | src/features/scripture/lib/import-pipeline.ts:188-196 | an XML verse row belongs to the version and book, carries the element's text, and is keyed the version id, book id, chapter and verse joined by vertical bars |
| ImportPipeline.ChaptersRowsFacts | src/features/scripture/lib/import-pipeline.ts:173-198 | every row of a run of chapters is a verse row of that book |
| ImportPipeline.BooksRowsFacts | src/features/scripture/lib/import-pipeline.ts:154-210 | every verse row of an XML file belongs to the version and has a book row with its book id and name |
| ImportPipeline.XmlBookRowsFacts | src/features/scripture/lib/import-pipeline.ts:200-207 | each book row is keyed the version id and book id joined by a vertical bar, its id has at most 8 characters and no whitespace, it has an abbreviation and its chapter count is at least 0 |
| ImportPipeline.XmlProgressSpec | src/features/scripture/lib/import-pipeline.ts:111-209 | the parsing reports start at 0, stay within 0..100, never go down, and end at 100 when there are books |
| ImportPipeline.Covered | src/features/scripture/lib/import-pipeline.ts:233-235 | the first batches never hold more than all the verses |
| ImportPipeline.Batches | src/features/scripture/lib/import-pipeline.ts:233-235 | the list of the first batches holds each batch in its place |
| ImportPipeline.BatchesCover | src/features/scripture/lib/import-pipeline.ts:233-235 | every batch holds between 1 and 500 verses and the first batches together are a prefix of the verses |
| ImportPipeline.AllBatches | src/features/scripture/lib/import-pipeline.ts:233-235 | all the batches together are the verse list, in order |
| ImportPipeline.ImportTablesSpec | src/features/scripture/lib/import-pipeline.ts:215-242 | the transaction commits exactly when the new book and verse keys are distinct and clash with no row of another version; it then puts the version row, keeps every row of the other versions, holds every new row under its key, and holds no other keys |
| ImportPipeline.VersionVersesExactly | src/features/scripture/lib/import-pipeline.ts:226-236 | when every new verse names the version, the version's verses afterwards are exactly the new ones |
| ImportPipeline.AddAllConcat | src/features/scripture/lib/import-pipeline.ts:233-236 | adding one batch after the other is adding them together |
| ImportPipeline.StepProgressSpec | src/features/scripture/lib/import-pipeline.ts:209-239 | stepwise progress stays within 0..100, never goes down, and ends at 100 |
| ImportPipeline.ImportProgress | src/features/scripture/lib/import-pipeline.ts:236-239 | one report per batch of 500 |
| ImportPipeline.AddBatches | src/features/scripture/lib/import-pipeline.ts:233-240 | the batch loop leaves the verse table that adding all the verses at once would, and reports once per batch |
| ImportPipeline.PerformBatchImport | src/features/scripture/lib/import-pipeline.ts:215-242 | the store becomes the committed tables with one report per batch, or stays as it was when the transaction aborts |
| ImportPipeline.ImportKeepsKeyed | src/features/scripture/lib/import-pipeline.ts:215-242 | a committed transaction keeps every row of the three tables under its own key |
| ImportPipeline.ProcessSpec | src/features/scripture/lib/import-pipeline.ts:46-78 | an import stores what the file normalises to in one transaction, or fails and leaves every table as it was; every row stays under its key; it fails exactly when the JSON is unreadable or the transaction aborts; an XML file always normalises |
| ImportPipeline.ProcessBibleBuffer | src/features/scripture/lib/import-pipeline.ts:46-78 | the store and result are those of the import of the chosen file, after the two unzip reports, then the parsing and batch reports |
| ImportPipeline.ImportFile | src/features/scripture/lib/import-pipeline.ts:72-77 | the importer for the file's kind followed by the transaction, with their reports |
| ImportPipeline.ImportBibleModule | src/features/scripture/lib/import-pipeline.ts:9-44 | a failed response or a body without a reader fails with the store unchanged; otherwise the downloaded chunks joined are processed; the first report is 0% downloading |
| UseScripture.FindIndex | src/features/scripture/hooks/useScripture.ts:62-65 | the search stops at the first version the test accepts or throws on; every earlier one is rejected |
| UseScripture.FindSpec | src/features/scripture/hooks/useScripture.ts:62-72 | `find` gives the first accepted version with every earlier one rejected, throws exactly when the test throws before any is accepted, and gives `undefined` exactly when every version is rejected |
| UseScripture.TargetVersionSpec | src/features/scripture/hooks/useScripture.ts:61-77 | with every version having a code: given a code, the target is the first version whose code or id equals it ignoring case, absent exactly when none does and with no fallback; without a code, the first NKJV version or, when there is none, the first version, absent only when nothing is installed |
| UseScripture.QueryChapter | src/features/scripture/hooks/useScripture.ts:80-84 | the compound-index query returns every stored verse of that version, book and chapter exactly once, and nothing else |
| UseScripture.QueryStep | src/features/scripture/hooks/useScripture.ts:80-84 | one more row scanned keeps the query's count of every verse right |
| UseScripture.FilterRange | src/features/scripture/hooks/useScripture.ts:86-92 | the filter keeps exactly the rows within the asked range, as often as they were there |
| UseScripture.InsertByVerseFacts | src/features/scripture/hooks/useScripture.ts:94 | inserting a row into rows sorted by verse keeps them sorted and adds exactly that row |
| UseScripture.SortByVerseFacts | src/features/scripture/hooks/useScripture.ts:94 | the sort orders the rows by verse and is a permutation of them |
| UseScripture.LookupRef | src/features/scripture/hooks/useScripture.ts:58-95 | an incomplete reference finds nothing; a failed version choice fails the lookup; no target finds nothing; otherwise the result is sorted by verse and holds each stored verse of the target version, book, chapter and range exactly once |
| UseScripture.UninstallSpec | src/features/scripture/hooks/useScripture.ts:46-56 | uninstalling removes the version row and all its verses and nothing else; the book rows stay and every row stays under its own key |
| UseScripture.UninstallAfterImport | src/features/scripture/hooks/useScripture.ts:46-56 | importing a version and then uninstalling it restores the other versions' rows, but the imported book rows stay behind |
| UseScripture.UninstallVersion | src/features/scripture/hooks/useScripture.ts:46-56 | the store becomes the uninstalled tables |
| UseScripture.Shown | src/features/scripture/hooks/useScripture.ts:14-16 | each report becomes the shown progress, in turn |
| UseScripture.ScriptureHook.constructor | src/features/scripture/hooks/useScripture.ts:9-10 | a new hook has no import running |
| UseScripture.ScriptureHook.Show | src/features/scripture/hooks/useScripture.ts:14-23 | each report is shown in turn and then the progress is cleared |
| UseScripture.ScriptureHook.DownloadVersion | src/features/scripture/hooks/useScripture.ts:12-24 | every report is shown in turn and cleared afterwards whether the import succeeds or throws; the outcome and the store are those of the module import |
| UseScripture.ScriptureHook.ImportFile | src/features/scripture/hooks/useScripture.ts:26-44 | the same for a picked file: the outcome is the processing of its buffer, which does not depend on the file name |
| Services.SpliceStart | convex/services.ts:75-94 | where `splice` begins on a list: a negative start counts from the end and stops at 0, and a start past the end stops at the end |
| Services.RemovedItemSpec | convex/services.ts:74-76 | an index in range drops exactly that item and keeps the others in order; an index past the end changes nothing; a negative index counts from the end, and one before the start drops the first item |
| Services.RemovedItemCount | convex/services.ts:74-76 | at most one item goes and none is added; exactly one goes unless the list is empty or the index is past its end |
| Services.SpliceOutSpec | convex/services.ts:93 | taking out the element at an index in range leaves the others and the element, and loses just that one |
| Services.SpliceInSpec | convex/services.ts:94 | putting an element in at the clamped index places it there, and taking it out again gives the old list |
| Services.ReorderedSpec | convex/services.ts:92-95 | when the first splice takes an item out, the result has the same items, the moved one at the clamped target index, and the others in their old order |
| Services.ReorderedInRange | convex/services.ts:92-95 | for indexes in range the moved item lands at `toIndex`, or at the end when `toIndex` is past it |
| Services.ReorderedOutOfRange | convex/services.ts:92-95 | the move fails exactly when the list is empty or `fromIndex` is past its end |
| Services.ServiceTable.constructor | convex/services.ts:21-37 | the table starts empty |
| Services.ServiceTable.Create | convex/services.ts:21-37 | a new row with a fresh id, no items and both timestamps `now` is added, and nothing else changes |
| Services.ServiceTable.AddItem | convex/services.ts:39-62 | a missing service fails with "Service not found" and changes nothing; otherwise the new item, stamped `now`, is appended to that service's items and nothing else changes |
| Services.ServiceTable.RemoveItem | convex/services.ts:64-79 | a missing service fails and changes nothing; otherwise that service's items become the list with the indexed item spliced out |
| Services.ServiceTable.ReorderItems | convex/services.ts:81-98 | a missing service fails; a move that takes nothing out fails on the `undefined` entry and changes nothing; otherwise that service's items become the reordered list |
| Services.ServiceTable.Update | convex/services.ts:100-117 | a missing service fails; otherwise only the name and date that are given replace the old ones |
| Services.ServiceTable.Rename | convex/services.ts:119-132 | a missing service fails; otherwise only the name changes |
| Services.ServiceTable.Remove | convex/services.ts:134-139 | the row is deleted; deleting a missing row fails in the database itself (`MissingDocument`, not "Service not found") and changes nothing |
| Services.UpdateNameIsRename | convex/services.ts:100-132 | `update` with a name alone does what `rename` does |
| UseServices.SelectedService | src/features/services/hooks/useServices.ts:98-101 | a selected service is a loaded service with the selected id, and one is selected whenever the loaded list holds the non-empty selected id |
| UseServices.ServiceItems | src/features/services/hooks/useServices.ts:104-113 | no items without a selected service or while the songs load; otherwise one entry per item, in order, carrying the item and its position |
| UseServices.ServiceItemSongs | src/features/services/hooks/useServices.ts:106-112 | a song item carries the first song with its id, or "not found" exactly when no song has it; every other item carries no song |
| UseServices.ServicesHook.constructor | src/features/services/hooks/useServices.ts:52-56 | nothing is selected, the operator is outside any service and no item is current |
| UseServices.ServicesHook.ValidateSelection | src/features/services/hooks/useServices.ts:86-96 | a selected id missing from the loaded list clears the selection, the inside flag and the item index; otherwise nothing changes; afterwards a non-empty selection is always listed |
| UseServices.ServicesHook.CreateNewService | src/features/services/hooks/useServices.ts:115-119 | without an organisation (a missing or empty id) or with a blank name nothing is created; otherwise one service with the trimmed name, no date and no items is added under a fresh id |
| UseServices.ServicesHook.RenameExistingService | src/features/services/hooks/useServices.ts:121-126 | the rename of the table, with its failure for a missing service |
| UseServices.ServicesHook.DeleteService | src/features/services/hooks/useServices.ts:128-134 | the row is deleted exactly when it exists; deleting the selected service deselects it and leaves it, but keeps the item index; otherwise the selection stays |
| UseServices.ServicesHook.AddSongToService | src/features/services/hooks/useServices.ts:136-141 | a song item without a label is appended to an existing service |
| UseServices.ServicesHook.AddMediaToService | src/features/services/hooks/useServices.ts:143-154 | a media item labelled with the media's name is appended to an existing service |
| UseServices.ServicesHook.AddScriptureToService | src/features/services/hooks/useServices.ts:156-167 | a scripture item holding the reference and labelled with the text is appended to an existing service |
| UseServices.ServicesHook.RemoveFromService | src/features/services/hooks/useServices.ts:169-174 | the indexed item is spliced out of an existing service |
| UseServices.ServicesHook.EnterService | src/features/services/hooks/useServices.ts:176-180 | entering selects the service, goes inside it and clears the item index |
| UseServices.ServicesHook.ExitService | src/features/services/hooks/useServices.ts:182-185 | leaving keeps the service selected, goes outside and clears the item index |
| UseServices.ServicesHook.SetServiceItemIndex | src/features/services/hooks/useServices.ts:56-209 | only the item index changes |
| UseServices.ServicesHook.ReorderServiceItems | src/features/services/hooks/useServices.ts:187-194 | moving an item onto itself calls nothing; otherwise the result and the table are those of the backend's reorder |
| UseServices.ServicesHook.ReorderServices | src/features/services/hooks/useServices.ts:196-199 | every call past the guard fails on the missing backend mutation, and the guard lets through exactly the calls with a non-empty organisation id and two different indexes |
| Categories.WithDefaultsRows | convex/categories.ts:24-35 | with fresh ids the default insertions keep every row and add exactly one row per step, the default category of that step |
| Categories.WithDefaultsKeeps | convex/categories.ts:24-35 | with fresh ids every earlier row survives the insertions unchanged |
| Categories.WithDefaultsHas | convex/categories.ts:24-35 | each step's default category is in the table under its id |
| Categories.WithDefaultsOnly | convex/categories.ts:24-35 | no row appears other than the earlier rows and the defaults |
| Categories.DefaultsOfEmptyOrg | convex/categories.ts:14-37 | an organisation without categories ends up with exactly three: `Songs`, `Flows` and `Hymns`, marked default and ordered 0, 1, 2, while every other row stays as it was |
| Categories.EnsureDefaultsIdempotent | convex/categories.ts:17-22 | calling `ensureDefaults` twice is calling it once |
| Categories.OrphanedSpec | convex/categories.ts:75-83 | exactly the songs of the category lose it, nothing else about any song changes, and no song is left in the category |
| Categories.CategoryStore.constructor | convex/categories.ts:14-87 | the store starts with no categories and the songs given |
| Categories.CategoryStore.EnsureDefaults | convex/categories.ts:14-37 | the table becomes the defaults-ensured table and the songs are untouched |
| Categories.CategoryStore.InsertDefaults | convex/categories.ts:24-35 | the insertion loop leaves the table with the three default insertions made |
| Categories.CategoryStore.Insert | convex/categories.ts:28-57 | one row is added under a fresh id, with both timestamps `now`, and nothing else changes |
| Categories.CategoryStore.Create | convex/categories.ts:39-59 | a custom category is added under a fresh id, not default, ordered after the organisation's existing categories |
| Categories.CategoryStore.Update | convex/categories.ts:61-70 | a missing category fails and changes nothing; otherwise only its name changes |
| Categories.CategoryStore.Remove | convex/categories.ts:72-87 | a missing category fails and changes nothing, songs included; otherwise the category is deleted and its songs become uncategorised |
| Wrappers.Option.OrElse | convex/playback.ts:30-31 | `a ?? b` keeps a value that is given and falls back only on a missing one |
| Playback.PatchedTwice | convex/playback.ts:27-35 | two patches in a row are one patch with, field by field, the later given value or else the earlier one; the row keeps its id and organisation |
| Playback.EmptySlideIdOverwrites | convex/playback.ts:30 | an empty slide id is a value and replaces the live slide; a missing one keeps it |
| Playback.PatchKeepsOrgs | convex/playback.ts:27-35 | patching a row without moving it to another organisation keeps every organisation's rows and keeps one row per organisation |
| Playback.InsertKeepsOrgs | convex/playback.ts:38-49 | inserting the first row of an organisation gives it exactly that row and keeps one row per organisation |
| Playback.PlaybackTable.constructor | convex/playback.ts:1-51 | the table starts empty |
| Playback.PlaybackTable.GetByOrg | convex/playback.ts:4-12 | no row when the organisation has none, a failure exactly when it has more than one, and otherwise its only row; with one row per organisation the query never fails |
| Playback.PlaybackTable.SetActiveSlide | convex/playback.ts:14-51 | more than one row fails and changes nothing; no row inserts one under a fresh id with the given fields and `isBlackedOut` false by default; one row is patched in place; afterwards the organisation has exactly the row returned, and one row per organisation is kept |
| UseSongs.FilteredSongs | src/features/songs/hooks/useSongs.ts:106-127 | nothing while loading; otherwise exactly the loaded songs in the non-empty category filter whose lower-cased title or lyrics hold the trimmed lower-cased query (any song for a blank query), in their loaded order |
| UseSongs.NoFilterKeepsAll | src/features/songs/hooks/useSongs.ts:106-127 | no category and a blank query leave the list as loaded |
| UseSongs.SelectedSong | src/features/songs/hooks/useSongs.ts:101-104 | a selected song is a loaded song with the selected id, and one is selected whenever the loaded songs hold the non-empty selected id |
| UseSongs.CreateNewSong | src/features/songs/hooks/useSongs.ts:129-144 | nothing is created exactly when there is no organisation or the title is blank; otherwise the trimmed title, the lyrics as typed, the category given and slides that are each a lyrics slide |
| UseSongs.UpdateExistingSong | src/features/songs/hooks/useSongs.ts:146-153 | the title and lyrics are sent as typed, with slides parsed from the lyrics |
| UseSongs.SongsHook.constructor | src/features/songs/hooks/useSongs.ts:61-67 | no song and no category selected, and an empty search |
| UseSongs.SongsHook.ValidateSelection | src/features/songs/hooks/useSongs.ts:91-99 | a selected id missing from the loaded songs is cleared and otherwise kept; afterwards a song is selected exactly when the songs are loaded and a non-empty id is selected |
| UseSongs.SongsHook.DeleteSong | src/features/songs/hooks/useSongs.ts:155-160 | deleting the selected song clears the selection; nothing else changes |
| Media.EndsWithAny | src/features/media/hooks/useMediaFolders.ts:150-151 | the name ends with some extension of the list exactly when the test says so |
| Media.MediaTypeOf | src/features/media/hooks/useMediaFolders.ts:148-153 | a name is an image exactly when its lower-cased form ends with an image extension, a video exactly when it ends with a video extension and no image one, and neither otherwise |
| Media.ImageByExtension | src/features/media/hooks/useMediaFolders.ts:137-153 | a name whose extension is an image extension in any letter case is an image |
| Media.VideoByExtension | src/features/media/hooks/useMediaFolders.ts:137-153 | a name whose extension is a video extension in any letter case is a video, since no image extension ends the same way |
| Media.PushesArePieces | src/features/media/hooks/useMediaFolders.ts:157-167 | each conditional push adds exactly the component of its filter when that filter is emitted |
| Media.CssPartsSpec | src/features/media/hooks/useMediaFolders.ts:157-167 | the pushes write exactly the emitted components, in the fixed order brightness, contrast, saturate, blur, grayscale, sepia, hue-rotate |
| Media.NoComponents | src/features/media/hooks/useMediaFolders.ts:157-168 | no component is written exactly when no filter is emitted |
| Media.EmittedStart | src/features/media/hooks/useMediaFolders.ts:157-169 | the first emitted component starts with a filter name, never with `n`, so a written filter list is never `none` |
| Media.FiltersToCss | src/features/media/hooks/useMediaFolders.ts:156-169 | the CSS is `none` exactly when no filter is emitted (brightness, contrast, saturation and hue away from their defaults; blur, grayscale and sepia only above zero), and otherwise the emitted components in the fixed order, joined by single spaces |
| Media.DefaultsAreNone | src/features/media/hooks/useMediaFolders.ts:38-46 | the default filters write no CSS filter |
| Media.MergedSpec | src/features/media/hooks/useMediaFolders.ts:532-535 | every field the patch gives wins and every other keeps its value; the empty patch changes nothing |
| Media.UpdatedFiltersSpec | src/features/media/hooks/useMediaFolders.ts:527-539 | an update merges the patch over the active item's current filters (its stored ones or the defaults), keeps every other item and adds no other; without an active item nothing changes |
| Media.UpdatedTwice | src/features/media/hooks/useMediaFolders.ts:527-539 | two updates of the same item are one update with, field by field, the later given value or else the earlier one |
| Media.ResetFiltersSpec | src/features/media/hooks/useMediaFolders.ts:541-547 | after a reset the active item writes no CSS filter and the other items keep theirs |
| Media.MediaItems | src/features/media/hooks/useMediaFolders.ts:373-376 | all items while no folder is selected, otherwise exactly the selected folder's items, in their order |
| Media.ItemsOfKind | src/features/media/hooks/useMediaFolders.ts:479-486 | the images, or the videos, are exactly the listed items of that type, in their order |
| Media.ItemsOutside | src/features/media/hooks/useMediaFolders.ts:459 | the items left after a folder is removed are exactly those of other folders, in their order |
| Media.FoldersOutside | src/features/media/hooks/useMediaFolders.ts:462 | the folders left after a folder is removed are exactly the others, in their order |
| Media.Reconnected | src/features/media/hooks/useMediaFolders.ts:336-340 | the folder with the id is marked as not needing permission and every other folder is unchanged, in place |
| Media.FirstsSpec | src/features/media/hooks/useMediaFolders.ts:118-134 | the first records of each name come from the list, include every record whose name no earlier record has, share no name, and cover every name |
| Media.FirstsOfDistinct | src/features/media/hooks/useMediaFolders.ts:118-134 | a list whose names are all different is its own first records |
| Media.FirstsIdempotent | src/features/media/hooks/useMediaFolders.ts:118-134 | keeping the first records twice is keeping them once |
| Media.DuplicateIdsSpec | src/features/media/hooks/useMediaFolders.ts:123-129 | a record's id is marked for deletion exactly when an earlier record has its name |
| Media.CleanupKeepsFirsts | src/features/media/hooks/useMediaFolders.ts:131-133 | deleting the marked ids leaves exactly the first record of each name |
| Media.WithoutKeepsIds | src/features/media/hooks/useMediaFolders.ts:96-105 | deleting records keeps the ids unique and adds no id |
| Media.DuplicatesOf | src/features/media/hooks/useMediaFolders.ts:120-129 | the loop with its set of seen names collects the ids of the records whose name was already seen, in order |
| Media.ClassifiedSpec | src/features/media/hooks/useMediaFolders.ts:238-244 | each folder comes from a record that was granted or asks for permission; every granted record gives its folder, and every asking record gives its folder marked as needing permission |
| Media.ClassifiedDistinct | src/features/media/hooks/useMediaFolders.ts:229-245 | records with distinct names give folders with distinct names |
| Media.SavedFoldersSpec | src/features/media/hooks/useMediaFolders.ts:229-245 | the saved folders have different names and hold every first record that was granted, plain, or asks, marked as needing permission, and nothing that comes from no record |
| Media.ValidFolders | src/features/media/hooks/useMediaFolders.ts:229-245 | the loop that skips a name already seen and keeps granted and asking folders yields the first records of each name, classified |
| Media.HandleStore.constructor | src/features/media/hooks/useMediaFolders.ts:50-115 | the store holds the records given, under unique ids |
| Media.HandleStore.RemoveHandle | src/features/media/hooks/useMediaFolders.ts:96-105 | the record with the id is deleted, the others stay in order, and the ids stay unique |
| Media.HandleStore.CleanupDuplicateHandles | src/features/media/hooks/useMediaFolders.ts:118-134 | the store is left with the first record of each name |
| Media.MediaLibrary.constructor | src/features/media/hooks/useMediaFolders.ts:212-217 | no folders, no items, no folder selected, nothing live, and the filters read from storage |
| Media.MediaLibrary.LoadSavedFolders | src/features/media/hooks/useMediaFolders.ts:223-253 | the store is cleaned up; when still mounted the folders become the classified first records, otherwise they stay; nothing else changes |
| Media.MediaLibrary.ReconnectFolder | src/features/media/hooks/useMediaFolders.ts:326-347 | a listed folder whose request is granted no longer needs permission; an unknown folder or a refused request changes nothing |
| Media.MediaLibrary.RemoveFolder | src/features/media/hooks/useMediaFolders.ts:449-470 | the record is deleted, the folder and its items are dropped, and the selection is cleared when it was that folder |
| Media.MediaLibrary.SelectMediaForOutput | src/features/media/hooks/useMediaFolders.ts:516-518 | only the live item changes |
| Media.MediaLibrary.UpdateMediaFilters | src/features/media/hooks/useMediaFolders.ts:527-539 | the filter map becomes the updated one, so the live item's filters are the patch merged over its current ones; nothing else changes |
| Media.MediaLibrary.ResetMediaFilters | src/features/media/hooks/useMediaFolders.ts:541-547 | the filter map becomes the reset one, the live item then writes no CSS filter, and nothing else changes |

## Left out

- Rendering, UI components, text fitting, cross-window broadcast, video sync, authentication and the AI lyrics cleanup: this is browser, timing or external-service code with no list or string logic to model.
- Network and foreign libraries become parameters. The download is a given sequence of chunks with its response status. `unzipSync` is an optional ordered map from name to content. `TextDecoder` is a given decoding of the buffer. `JSON.parse` and `DOMParser` are given parse results: a JSON value, or an element tree with attributes. Permission queries and requests, and `Date.now()`, are given too.
- IndexedDB and the Convex database are in-memory maps. A transaction works on local copies that are written back only when every step succeeds. A patch or delete of a missing id, and a list entry that is `undefined`, are assumed to make the mutation fail with nothing written.
- Convex ids are numerals drawn from a counter. Only their freshness is modelled.
- The `list`, `get` and `listByOrg` queries only read a table and return rows. The hooks take their results as parameters, `None` while loading.
- `async` calls are taken as running to completion in order. Interleaving, and a component unmounting between two awaits, are not modelled. The exception is `isMounted` in `loadSavedFolders`, which is a parameter.
- `localeCompare` is code-unit lexicographic order, a fixed total order. Locale collation is not modelled.
- `toLowerCase` and `toUpperCase` act on ASCII letters only. Other characters are unchanged.
- String lengths count characters, not UTF-16 code units.
- `Math.round(i / n * 100)` is computed exactly as rational half-up rounding. Floating-point error is not modelled.
- Text.ParseInt: `parseInt` yields a double, but the model keeps the exact integer value of the digits. A digit run above 2^53 is not rounded, and Text.IntToString prints every digit where `${n}` switches to exponent form from 10^21 up (a chapter part `1000000000000000000000` is offered back as 22 digits, not `1e+21`). This affects the chapter placeholders, the parser's chapter and verses, the XML chapter and verse keys and numbers, and the content length.
- `Number()` is modelled on decimal digit strings, the inputs the grammar lets through. Hexadecimal, exponent and fractional numerals are not.
- A `NaN` chapter or verse number in XML stores 0, and its primary key prints `NaN`. Silent `NaN` propagation beyond that is not modelled.
- Splice indexes are integers. A non-integer index passed to `removeItem` or `reorderItems` is not modelled.
- CSS filter amounts are integers, and a `Partial` with a field explicitly set to `undefined` is the same as one without the field.
- Persistence and hydration through `localStorage` in the songs, services and media hooks are left out: each hook starts from given values. The `useState` setters that only store their argument have no separate member.
- convex/songs.ts is not part of this model. The songs hook yields the arguments of its `create` and `update` calls.
- The media hook's `loadAllMedia`, `addFolder`, `reconnectAllFolders`, `refreshMedia`, `updateVideoSettings` and `blobUrlToDataUrl` are left out. They walk directories, create object URLs or only store settings. File handles, object URLs and their revocation are not modelled.
- Media: the records that `loadHandles` returns are a given list in key order, and a failing `loadHandles` is not modelled. Permission states other than granted and prompt drop the folder, like `denied`.
- The toasts and console messages of the hooks are not modelled.
- The scripture input box's `onRefChange(parseReference(value))` is not a separate member. It is the parser applied to the stored value.
- ReferenceParser.IsValidCharacter: `isValidCharacter` is a predicate whose definition is the character class itself. Its only lemma ties it to the keystroke filter, AllowedAfterBookValid.
- UseScripture.SortByVerseFacts: states sorted and permutation but not stability. The order of two rows with the same verse number is left open, as the query order is.
- Autocomplete.SortFacts: states order by rank and permutation, not stability. The deduplication that follows keeps the first book of each name, whatever the order of equal ranks.
- Playback.Patched and Playback.Inserted carry no contract of their own. PatchedTwice, EmptySlideIdOverwrites and PlaybackTable.SetActiveSlide state their behaviour.
- ScriptureInput.SearchBox.Choose: a suggestion without text (a version without a code) makes the source store `undefined` as the value, after which the next render's `parseReference` throws on `trim`. The model cannot hold `undefined` as the value, so this is a failure result `UndefinedValue` that keeps the old value; the throw is not modelled. ScriptureInput.SearchBox.HandleKeyDown passes the same failure on.
- Lyrics.Capitalize: states only that the length is kept. ParseLyricsSlides states what the label then looks like.
