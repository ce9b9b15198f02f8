# Font-based outline extraction, modelled in Dafny

This project models the decision engine of `pdf_outline`. The engine takes the
positioned text runs of one PDF document and infers the document's title plus an
ordered outline of `(level, text, page)` headings. It runs five stages, in order,
and each stage is a module here:

| module | stage |
|---|---|
| `Records` | the `LineInfo`, `OutlineEntry` and output records, the level names and the fixed thresholds (margins 50/750, paragraph length 100, pages 1–4, repeat count 3, size tolerance 1.0, line gap 40) |
| `Text` | Java's `String.trim` (strip every character `<= ' '` at both ends) |
| `Acquisition` | run acceptance, the body of the text stripper's `writeString` callback, as a `LineCollector` class whose method updates the `allLines`, `lineFreq` and `paragraphFontSizes` accumulators |
| `RepeatedFilter` | collecting the texts seen three or more times on pages 1–4 and dropping them from the whole document |
| `FontLevels` | the font-level classifier: the sizes above every paragraph size, sorted largest first and labelled Title, H1 … H5, with H5 for any overflow and for unmapped sizes |
| `Merger` | the two-index loop that joins consecutive lines into logical lines |
| `OutlineBuilder` | the forward pass that anchors and extends the title, gates headings on the title, and emits each heading confirmed by a later line of its page |
| `Pipeline` | `extractFontInfo` for one document, stage after stage |

Every imperative stage is a method with loops that is proved equal to a
specification function: `CollectRuns` against `CollectLines`, `FreqMap` and
`ParaSizes`, `DropHeadersFooters` against `Without`, `ClassifyFontSizes` against
`LevelMapSpec`, `MergeLines` against `MergeSpec` and `BuildOutline` against
`BuildSpec`. The lemmas then state what the source promises about those
functions.

Sizes and y coordinates are reals. Levels are indices 0..5 into
`["Title", "H1", "H2", "H3", "H4", "H5"]`. A text run is an abstract record: its
text, its glyphs (each with y, size and a bold flag) and its page number.

The model follows the code in four places where one might expect otherwise:

- The merger compares each candidate's size with the run's base line, not with
  the line just absorbed. One might expect two adjacent lines that are close in
  size and position always to merge, but they can land in different logical
  lines: sizes 10, 10.9 and 11.8 give two logical lines
  (`Merger.SizeComparedWithBase`).
- A run with visible text but no glyph positions makes the callback throw
  (it reads the first glyph), and the document then fails as a whole, although
  one might expect the stages never to fail. The model keeps the failure as
  `None` (`Pipeline.ExtractionFailsIff`).
- A Title-level line on page 5 or later can pass every gate. It is then
  emitted as an outline entry labelled "Title" (`OutlineBuilder.TitleEntriesAreLate`
  states the page bound such an entry obeys).
- The header and footer filter removes lines, not texts. One might expect a
  text seen three or more times on pages 1–4 never to appear in the output,
  but the merger can rebuild it from other lines: "A" and "B" at the top of
  page 1 merge into "A B", which becomes the title although "A B" occurs on
  each of pages 2 to 4 (`Pipeline.RepeatedTextCanBeTitle`). What the code
  does guarantee is that no repeated line reaches the merger
  (`Pipeline.RepeatedLinesNeverReachMerger`).

## Model

| member | source | states |
|---|---|---|
| Text.Trim | src/pdf_outline.java:82 | the result is the input with a blank prefix and a blank suffix cut off, has no blank at either end, and is never longer than the input; it is empty exactly when every character of the input is blank |
| Text.TrimIdentity | src/pdf_outline.java:165 | trimming an already trimmed text changes nothing |
| Acquisition.MaxGlyphSize | src/pdf_outline.java:87-93 | the run size is at least 0, at least every glyph's size, and is either 0 or some glyph's size |
| Acquisition.ScanGlyphs | src/pdf_outline.java:87-94 | the glyph loop returns the largest glyph size (starting from 0) and is bold exactly when some glyph is bold |
| Acquisition.AcceptRunMeaning | src/pdf_outline.java:81-97 | a run fails exactly when its trimmed text is non-empty and it has no glyphs; it is kept exactly when its trimmed text is non-empty and its first glyph's y lies in [50, 750]; a kept line carries the trimmed text, the maximum glyph size, the any-glyph bold flag, the run's page and the first glyph's y |
| Acquisition.LineCollector.WriteString | src/pdf_outline.java:81-106 | one callback keeps the accumulators equal to the frequency and paragraph-size folds of the line list; it fails exactly on a failing run, and then leaves the line list as it was; otherwise the line list grows by the run's outcome |
| Acquisition.CollectRuns | src/pdf_outline.java:67-69 | delivering every run of a document gives the collected lines with their frequency map and paragraph sizes, or None exactly when the specification of the collected lines fails |
| Acquisition.LineCollector.Record | src/pdf_outline.java:96-105 | recording a kept line appends it and keeps the frequency map and paragraph sizes equal to their folds over the line list |
| Acquisition.FailureAtFails | src/pdf_outline.java:84 | a single run with visible text and no glyphs makes the whole document fail |
| Acquisition.NoFailureCollects | src/pdf_outline.java:81-106 | when no run fails, every prefix of the runs is collected |
| Acquisition.CollectFailsIff | src/pdf_outline.java:84 | the document fails exactly when some run has visible text but no glyphs |
| Acquisition.CollectFailureSticks | src/pdf_outline.java:84 | once a prefix of the runs has failed, the whole document has failed |
| Acquisition.CollectedLinesWellFormed | src/pdf_outline.java:82-97 | every collected line has non-empty trimmed text and a y inside the margins |
| Acquisition.FreqMapCounts | src/pdf_outline.java:103-105 | a text is in the frequency map exactly when it occurs on pages 1–4, and its count is its number of occurrences there |
| Acquisition.ParaSizesExactly | src/pdf_outline.java:99-101 | a size is a paragraph size exactly when some collected line longer than 100 characters has that size |
| RepeatedFilter.CollectHeadersFooters | src/pdf_outline.java:114-117 | the collected set holds exactly the texts whose count is 3 or more |
| RepeatedFilter.DropHeadersFooters | src/pdf_outline.java:119-122 | the loop keeps exactly the lines whose text is not a header or footer, in their order |
| RepeatedFilter.Without | src/pdf_outline.java:119-122 | filtering never lengthens the line list |
| RepeatedFilter.WithoutMembers | src/pdf_outline.java:119-122 | a line survives exactly when it was in the input and its text is not removed |
| RepeatedFilter.WithoutAppend | src/pdf_outline.java:119-122 | filtering distributes over concatenation, so survivors keep their relative order |
| RepeatedFilter.RepeatedExactly | src/pdf_outline.java:103-105 | a text is a header or footer exactly when it occurs 3 or more times on pages 1–4 |
| RepeatedFilter.HeadersFootersRemoved | src/pdf_outline.java:114-122 | a line survives the filter exactly when it was collected and its text occurs fewer than 3 times on pages 1–4, whatever its page |
| FontLevels.NonParagraphSizes | src/pdf_outline.java:124-129 | the candidate sizes are exactly the sizes of lines that are strictly larger than every paragraph size |
| FontLevels.SortDescending | src/pdf_outline.java:131-132 | the sorted list is strictly descending and holds exactly the candidate sizes, each once |
| FontLevels.DescendingDistinct | src/pdf_outline.java:131-132 | a strictly descending list has as many distinct elements as entries |
| FontLevels.RankInSorted | src/pdf_outline.java:135-137 | in the sorted list, position i holds the size with exactly i larger candidates |
| FontLevels.BuildLevelMap | src/pdf_outline.java:134-138 | the loop maps each sorted size to the level named by its position, H5 from position 5 on, which equals the rank-based reference map |
| FontLevels.ClassifyFontSizes | src/pdf_outline.java:124-138 | the classifier's map is the rank-based reference map of the candidate sizes |
| FontLevels.MappedSizes | src/pdf_outline.java:124-138 | a size is mapped exactly when some line has it and it is strictly above every paragraph size (every size when there are none) |
| FontLevels.TitleIsLargest | src/pdf_outline.java:135-137 | a candidate size is labelled Title exactly when no candidate is larger |
| FontLevels.LevelsMonotone | src/pdf_outline.java:131-137 | a larger candidate size never gets a deeper level than a smaller one |
| FontLevels.LevelsStrict | src/pdf_outline.java:131-137 | below H5, a larger size gets a strictly shallower level |
| FontLevels.OverflowIsH5 | src/pdf_outline.java:137 | a size at sorted position 6 or beyond gets H5 |
| FontLevels.UnmappedIsH5 | src/pdf_outline.java:184 | looking up a size without an entry gives H5 |
| FontLevels.TwoSizeLevels | src/pdf_outline.java:131-138 | candidates 24 and 18 map to Title and H1 |
| Merger.ExtendRun | src/pdf_outline.java:154-163 | the inner loop stops at the end of the run and returns the space-joined texts and the largest size of the run |
| Merger.MergeLines | src/pdf_outline.java:145-167 | the merging loop produces exactly the combined runs of the reference partition |
| Merger.MergeSpec | src/pdf_outline.java:145-167 | there are never more merged lines than input lines, and none only for an empty input |
| Merger.SegmentsPartition | src/pdf_outline.java:146-166 | the runs, concatenated, give back the input in order; in each run every later line is within 1.0 of the base size, on the base page and within 40 of the previous line's y; and no run's first line would have joined the run before it |
| Merger.MergedAreCombinedRuns | src/pdf_outline.java:145-167 | the merged lines are the runs of the reference partition, each combined into one line, in order |
| Merger.CombineEachAt | src/pdf_outline.java:148-165 | the k-th merged line is built from the k-th run: its trimmed joined text, its largest size, and the base line's bold flag, page and y |
| Merger.SegmentsFlatten | src/pdf_outline.java:146-166 | the runs, concatenated, give back the input lines in order |
| Merger.SegmentsChained | src/pdf_outline.java:154-160 | in each run, every later line is within 1.0 of the base size, on the base page and within 40 of the previous line's y |
| Merger.SegmentsMaximal | src/pdf_outline.java:154-162 | the first line of every run after the first would not have joined the run before it |
| Merger.MaxSize | src/pdf_outline.java:149-159 | a run's size is at least every line's size and is one of them |
| Merger.JoinTextsAppend | src/pdf_outline.java:158 | joining two runs puts exactly one space between their joined texts |
| Merger.JoinedTextIsTrimmed | src/pdf_outline.java:158-165 | joining non-empty trimmed texts gives a non-empty trimmed text that starts with the base text, so the final trim changes nothing |
| Merger.MergedTextsNonEmpty | src/pdf_outline.java:145-167 | merging lines with non-empty trimmed texts gives lines with non-empty trimmed texts |
| Merger.TwoLinesMerge | src/pdf_outline.java:155-160 | two lines that join become one line with text `a + " " + b`, the larger size and the first line's bold flag, page and y |
| Merger.SizeComparedWithBase | src/pdf_outline.java:157 | sizes 10, 10.9 and 11.8 give two merged lines although the last two lines would join each other |
| OutlineBuilder.ConfirmHeading | src/pdf_outline.java:201-218 | the inner scan answers exactly the forward-confirmation predicate |
| OutlineBuilder.BuildOutline | src/pdf_outline.java:140-223 | the builder loop produces the title and entries of the reference pass |
| OutlineBuilder.TitleFoundIff | src/pdf_outline.java:186-196 | a title exists exactly when some merged line is a non-skipped Title-level line on pages 1–4 |
| OutlineBuilder.TitleAnchoredAtFirst | src/pdf_outline.java:187-191 | the first such line anchors the title: the title keeps its size and page and starts with its text |
| OutlineBuilder.AnchorStable | src/pdf_outline.java:187-193 | once anchored, the title's page and size never change: extending the title changes only its text (stated by TitleTextJoined) |
| OutlineBuilder.JoinerIndicesExact | src/pdf_outline.java:192-193 | the positions that extend the title are increasing, and a position extends it exactly when it lies after the anchor, is a title line, is on the anchor's page and is within 1.0 of the anchor's size |
| OutlineBuilder.TitleTextJoined | src/pdf_outline.java:186-196 | after the first title line, the title is the anchor's text followed by " " and the text of every line that extends it, in order; it keeps the anchor's size and page, and other title lines are dropped |
| OutlineBuilder.DocumentTitle | src/pdf_outline.java:186-196 | the document's title is the anchor's text joined with every extending line's text |
| OutlineBuilder.EmittedIndicesExact | src/pdf_outline.java:169-222 | emitted positions are strictly increasing, so entries follow merged-line order; a position is emitted exactly when it passes every gate |
| OutlineBuilder.NoTitleNoOutline | src/pdf_outline.java:198 | with no title there are no outline entries |
| OutlineBuilder.EmittedGates | src/pdf_outline.java:175-220 | every emitted line comes after the title was found, is not on a page before the title's, has no paragraph size, is not a bold paragraph nor a title line, has text and is confirmed |
| OutlineBuilder.ConfirmedIff | src/pdf_outline.java:201-218 | a candidate is confirmed exactly when some later line, before the first page change, has a paragraph size or a strictly deeper level |
| OutlineBuilder.LastOnPageNeverEmitted | src/pdf_outline.java:201-204 | the last merged line of a page is never emitted |
| OutlineBuilder.TitleEntriesAreLate | src/pdf_outline.java:186-221 | an entry labelled Title always comes from a page after the fourth |
| OutlineBuilder.EntriesAt | src/pdf_outline.java:221 | one entry per emitted position, carrying its level name, text and page |
| OutlineBuilder.TitleAndTwoHeadings | src/pdf_outline.java:169-223 | a title line followed by two size-18 headings, each confirmed by a paragraph, gives that title and two H1 entries |
| Pipeline.ExtractFontInfo | src/pdf_outline.java:65-223 | the whole extraction, stage by stage, equals the composed reference functions |
| Pipeline.ExtractionFailsIff | src/pdf_outline.java:84 | extraction fails exactly when some run has visible text but no glyphs |
| Pipeline.UntitledHasNoOutline | src/pdf_outline.java:198 | a document without a title has an empty outline |
| Pipeline.MergedLinesHaveText | src/pdf_outline.java:220 | every line the builder sees has non-empty trimmed text, so its emptiness test never rejects a line |
| Pipeline.RepeatedLinesNeverReachMerger | src/pdf_outline.java:114-122 | no line whose text occurs 3 or more times on pages 1–4 reaches the classifier or the merger |
| Pipeline.RepeatedTextCanBeTitle | src/pdf_outline.java:114-196 | a text occurring three times on pages 1–4 can still be the title, when the merger rebuilds it from two other lines |
| Pipeline.ParagraphSizesIgnoreFilter | src/pdf_outline.java:99-101 | paragraph sizes are registered from every collected line, including lines the filter later removes |

## Left out

- `main` (src/pdf_outline.java:42-63) is not modelled: it lists a directory, matches file extensions and prints to the console, and that is all I/O.
- The PDFBox mechanics are not modelled: loading the document, wiring the callback, tracking the current page in `startPage`, `getText` and closing. These are src/pdf_outline.java:66, 71-80, 109-112 and 235. Runs come in as a sequence, and each run carries the page it was rendered on.
- The bold test on a glyph's font name is not modelled. Each glyph carries a bold flag instead.
- JSON serialisation and the output file are not modelled (src/pdf_outline.java:225-233). The result is an `OutlineDocument` value.
- Java `float` arithmetic is not modelled. Sizes and y are exact reals, and only comparisons, `max` and absolute differences are used.
- The commented-out colon truncation (src/pdf_outline.java:177-182) is inactive code and is not modelled.
- Hash-set and hash-map iteration order is not modelled. Collections are Dafny sets and maps. The headers/footers pass picks keys in an arbitrary order, and its result does not depend on the order.
- Text length is the number of characters of the modelled string. Java counts UTF-16 code units, and the two can differ for characters outside the Basic Multilingual Plane.
- Pipeline.ExtractFontInfo: a failure leaves no partial output, and the exception's propagation to `main` is modelled as `None`.
