# PDF handout tools: a Dafny model

This project models the text- and layout-processing core of a handout
management tool for lecture PDFs. The model has four parts.

- **Cleaner** (`utiles/process_pdf.py`) removes watermark and promotional
  text and repeated or banner images. The rule that decides whether a text
  span is noise is `should_remove_text`. The redaction planner of
  `clean_pdf` walks text blocks, lines and spans. It also keeps a run-wide
  set of image fingerprints. The text export of `extract_clean_text` is
  one `--- Page n ---` section per page that keeps text.
- **Section index** (`utiles/parse_pdf.py`) finds Lecture, Lesson, Chapter,
  Module and Topic headings near the top of each page. It skips
  table-of-contents pages among the first five, keeps the first page of
  each title, and gives every section an end page.
- **Directed redaction** (`utiles/pdf_editor.py`) applies a list of
  actions to a document. An action redacts a box on one page, a box on
  every page, or every occurrence of a text. A page collects redaction
  annotations and commits them in one batch.
- **Question-tool text heuristics** (`utiles/mcqs_generator.py`) clean the
  text, detect topics line by line, extract acronyms and frequent
  capitalised terms, and lay out the question file.

The document library is replaced by plain data. Pages, spans, images,
placements and search hits are inputs, and committing redactions appends a
batch of rectangles to a page. Code that changes state in place is modelled
imperatively. This covers the planner that owns the seen-image set, the
page loops, the action loop over a document object, and the loops of the
question heuristics. Each method is proved equal to a specification
function, and the properties are proved as lemmas about those functions.

Files:
- `text.dfy`: ASCII models of `str.strip`, `str.lower`, `str.isupper`,
  `str.split`, `join`, `re.sub(r"\s+", " ", …)` and `str(int)`.
- `classifier.dfy`: `should_remove_text`.
- `page_model.dfy`: rectangles, spans, blocks, images and pages.
- `cleaner.dfy`: `clean_pdf`.
- `clean_text.dfy`: `extract_clean_text`.
- `sections.dfy`: `parse_pdf`, with worked examples in `section_examples.dfy`.
- `editor.dfy`: `pdf_editor.py`.
- `mcq.dfy`: the question tool.
- `wrappers.dfy`: `Option`.

Two consequences of the section-index code:
- **Offset limit.** `m.start() > 100` skips a match, so matches starting at
  offsets 0 to 100 (the first 101 characters of the page) are kept.
- **Pattern order.** Titles on one page are listed in pattern order. When
  two titles start on the same page, the first one ends on that page and
  the second one runs to the page before the next section
  (`SectionExamples.SamePageOrder`).

Two properties of the question tool are visible only in the model:
- **Double spaces.** `preprocess_text` collapses whitespace before it drops
  disallowed characters, so its output can hold two adjacent spaces
  (`Mcq.PreprocessDoubleSpace`).
- **No line breaks.** Its output has no line breaks, so topic detection run
  on cleaned text sees a single line (`Mcq.PreprocessedSingleTopic`).

## Model

| member | source | states |
|---|---|---|
| Classifier.TrivialTextKept | utiles/process_pdf.py:46-49 | text whose lower-cased, stripped form has fewer than 2 characters is never removed, whatever the font size and areas |
| Classifier.SignalRemoves | utiles/process_pdf.py:51-68 | non-trivial text matching a pattern, a watermark keyword or a spam phrase is removed |
| Classifier.WatermarkAlwaysRemoved | utiles/process_pdf.py:56-59 | text containing any watermark keyword in any casing is removed regardless of font size and area |
| Classifier.SpamAlwaysRemoved | utiles/process_pdf.py:61-68 | text containing any spam phrase in any casing is removed regardless of font size and area |
| Classifier.WatermarkWordBordered | utiles/process_pdf.py:36-40 | every watermark keyword has at least two characters and no whitespace at its ends, so stripping never hides it |
| Classifier.SpamPhraseBordered | utiles/process_pdf.py:62-65 | the same for every spam phrase |
| Classifier.SmallFontNeedsSignal | utiles/process_pdf.py:42-76 | with a font size of at most 18 (or none), text is removed iff it is non-trivial and carries a pattern, keyword or phrase |
| Classifier.LargeFontGeometry | utiles/process_pdf.py:70-74 | with a font size above 18, non-trivial text is always removed when the page area is at most 0; otherwise it is removed iff it carries a signal or its box covers less than 0.5% of the page |
| Classifier.DecideLargeFont | utiles/process_pdf.py:52-74 | the same on already-normalised text, for the rule cascade |
| Classifier.RatioBelow | utiles/process_pdf.py:72-73 | the guarded ratio is below 0.005 iff the box area is below 0.005 times a positive page area, and always when the page area is not positive |
| PageModel.Width | utiles/process_pdf.py:104 | a rectangle's width is never negative |
| PageModel.Height | utiles/process_pdf.py:104 | a rectangle's height is never negative |
| PageModel.Expand | utiles/process_pdf.py:159 | `bbox + (-2, -2, 2, 2)` moves each edge outwards by the margin |
| Cleaner.FingerprintOf | utiles/process_pdf.py:175-176 | the fingerprint is a prefix of the samples: all of them when there are at most 1000, otherwise exactly the first 1000 bytes |
| Cleaner.SpanRects | utiles/process_pdf.py:146-160 | a run of spans contributes at most one rectangle per span |
| Cleaner.FlaggedSpanRedacted | utiles/process_pdf.py:146-160 | every flagged span contributes its bbox grown by 2 on every side |
| Cleaner.SpanRectHasSource | utiles/process_pdf.py:146-160 | every rectangle of a run of spans is the grown bbox of a flagged span of that run |
| Cleaner.FlaggedLineSpanRedacted | utiles/process_pdf.py:145-160 | the same completeness over the lines of a block |
| Cleaner.FlaggedBlockSpanRedacted | utiles/process_pdf.py:141-160 | the same completeness over the blocks of a page; blocks without lines contribute nothing |
| Cleaner.FlaggedSpanOnPageRedacted | utiles/process_pdf.py:141-160 | every span with non-blank stripped text that the classifier flags on the page yields its grown bbox among the page's text rectangles |
| Cleaner.LineRectHasSource | utiles/process_pdf.py:145-160 | every rectangle of a block's lines comes from a flagged span |
| Cleaner.BlockRectHasSource | utiles/process_pdf.py:141-160 | every rectangle of a page's blocks comes from a flagged span of a text block |
| Cleaner.TextRectHasSource | utiles/process_pdf.py:141-160 | every text rectangle of a page is the grown bbox of a span with non-blank text that the classifier flags |
| Cleaner.PlacementStep | utiles/process_pdf.py:181-193 | a placement of a small (< 3000 px) or already seen image is redacted and registers nothing; otherwise a banner-sized image (< 30000 px) touching the top or bottom 15% band is redacted, and any other placement appends nothing and registers its hash; a hash is registered only when all three checks pass, and a placement is either redacted or registers its hash, never both |
| Cleaner.PlacementsPlan | utiles/process_pdf.py:181-193 | the placements of one image only add rectangles and can register only that image's fingerprint |
| Cleaner.SeenImageFullyRedacted | utiles/process_pdf.py:183-185 | once a fingerprint is registered, every placement of that image is redacted and nothing new is registered |
| Cleaner.PlacementsSplit | utiles/process_pdf.py:181-193 | planning the placements in two parts equals planning them at once |
| Cleaner.KeptThenLaterRedacted | utiles/process_pdf.py:181-193 | after a placement is kept on a page, every later placement of the same image on that page is redacted |
| Cleaner.ImagePlan | utiles/process_pdf.py:164-196 | one image only adds rectangles and fingerprints; an image whose pixmap or placements are unavailable is skipped |
| Cleaner.ImagesPlan | utiles/process_pdf.py:163-196 | the images of a page only add rectangles and fingerprints |
| Cleaner.ImagesPlanPrefix | utiles/process_pdf.py:163-196 | the plan of the first images is a prefix of the page plan, and its seen set is contained in the page's |
| Cleaner.DuplicateImageRedacted | utiles/process_pdf.py:183-185 | an image whose fingerprint was registered earlier on the page has all its placements redacted |
| Cleaner.PagePlan | utiles/process_pdf.py:128-202 | a page's plan contains all its text rectangles, and the seen set never shrinks |
| Cleaner.CleanPlan | utiles/process_pdf.py:126-202 | one rectangle list per page, and the seen set never shrinks across pages |
| Cleaner.CleanPlanPrefix | utiles/process_pdf.py:126-202 | the plan of the first pages is a prefix of the whole plan |
| Cleaner.RegisteredImageRedactedLater | utiles/process_pdf.py:126 | an image registered on an earlier page has every placement on a later page redacted |
| Cleaner.CollectTextRects | utiles/process_pdf.py:141-160 | the text walk of a page computes its text rectangles |
| Cleaner.CollectBlockRects | utiles/process_pdf.py:141-144 | the block loop skips blocks without lines and concatenates the rest |
| Cleaner.CollectLineRects | utiles/process_pdf.py:145-146 | the line loop concatenates the rectangles of each line |
| Cleaner.CollectSpanRects | utiles/process_pdf.py:146-160 | the span loop appends the grown bbox of each flagged span |
| Cleaner.PageCleaner.constructor | utiles/process_pdf.py:126 | a run starts with no seen images |
| Cleaner.PageCleaner.ProcessPage | utiles/process_pdf.py:128-202 | one page's rectangles and the updated seen set are the page plan from the old seen set; the set only grows |
| Cleaner.CleanPdf | utiles/process_pdf.py:122-210 | the page loop yields, for each page, the rectangles of the plan that threads the seen set from page to page |
| CleanText.LineWords | utiles/process_pdf.py:96-108 | a line yields at most one word per span |
| CleanText.AllKeptLines | utiles/process_pdf.py:84-111 | one list of lines per page |
| CleanText.LineWordHasSource | utiles/process_pdf.py:96-108 | every word of a line is the stripped non-blank text of a kept span of that line |
| CleanText.KeptSpanHasWord | utiles/process_pdf.py:96-108 | every kept span with non-blank text gives a word of its line |
| CleanText.LineWordsPrefix | utiles/process_pdf.py:96-108 | the words of the first m spans of a line are a prefix of the line's words |
| CleanText.LineWordAt | utiles/process_pdf.py:96-108 | a kept span with non-blank text gives the word right after the words of the spans before it |
| CleanText.LineWordsInOrder | utiles/process_pdf.py:96-108 | of two kept spans with non-blank text, the earlier one gives the earlier word |
| CleanText.LineWordsNonEmpty | utiles/process_pdf.py:96-110 | a line has words iff one of its spans has non-blank stripped text and is kept |
| CleanText.BlockLinesNonEmpty | utiles/process_pdf.py:94-111 | a block has lines iff a span of one of its lines has non-blank stripped text and is kept |
| CleanText.PageLinesNonEmpty | utiles/process_pdf.py:90-111 | a page has lines iff a span in a line of one of its text blocks has non-blank stripped text and is kept; blocks without lines never count |
| CleanText.KeptLinesNonEmpty | utiles/process_pdf.py:84-111 | a page has kept lines iff it has a span with non-blank stripped text that the classifier keeps at that page's area |
| CleanText.LineWordsSolid | utiles/process_pdf.py:97-99 | words are stripped and non-empty |
| CleanText.BlockLinesSolid | utiles/process_pdf.py:94-111 | every line of a block is stripped and non-empty |
| CleanText.PageLinesSolid | utiles/process_pdf.py:90-111 | every line of a page is stripped and non-empty |
| CleanText.KeptLinesSolid | utiles/process_pdf.py:84-111 | every kept line of every page is stripped and non-empty |
| CleanText.KeptPageNumbers | utiles/process_pdf.py:113-114 | every listed page number lies between 1 and the page count |
| CleanText.KeptPageNumbersAscending | utiles/process_pdf.py:84-114 | page numbers appear in strictly ascending order |
| CleanText.KeptPageNumberIff | utiles/process_pdf.py:113-114 | a page number is listed iff that page has at least one kept line |
| CleanText.KeptPageListed | utiles/process_pdf.py:84-114 | page n gets a `--- Page n ---` section iff 1 <= n <= page count and page n has a span with non-blank stripped text that the classifier keeps |
| CleanText.SectionsPrefix | utiles/process_pdf.py:84-114 | the sections of pages up to m depend only on those pages |
| CleanText.LayoutIsSections | utiles/process_pdf.py:84-114 | the accumulated text is exactly one `--- Page n ---` section per page with lines, in page order |
| CleanText.LayoutShape | utiles/process_pdf.py:114 | the accumulated text is empty, or starts with a newline and "-" and ends with one newline after a non-space character |
| CleanText.StrippedLayout | utiles/process_pdf.py:117 | the final strip removes exactly the first and the last character of the accumulated sections |
| CleanText.StripFramed | utiles/process_pdf.py:117 | `.strip()` of text that starts with a newline and "-" and ends with a newline after a non-space character removes exactly those two newlines |
| CleanText.CleanTextSections | utiles/process_pdf.py:78-117 | the export is the page sections without the leading and the trailing newline |
| CleanText.ExtractCleanText | utiles/process_pdf.py:78-117 | the page loop computes the export |
| CleanText.CollectPageLines | utiles/process_pdf.py:90-111 | the block loop of a page computes its lines |
| CleanText.CollectBlockLines | utiles/process_pdf.py:94-111 | the line loop joins the words of each line with single spaces and drops lines without words |
| CleanText.CollectLineWords | utiles/process_pdf.py:96-108 | the span loop skips blank spans and keeps the stripped text of the others that are not removed |
| Sections.Keyword | utiles/parse_pdf.py:6-12 | each heading kind has a non-empty keyword |
| Sections.KeywordAt | utiles/parse_pdf.py:7-11 | a keyword found at an offset fits in the text |
| Sections.SkipSpaces | utiles/parse_pdf.py:7-11 | `\s*` consumes exactly the maximal whitespace run |
| Sections.SkipDigits | utiles/parse_pdf.py:7-11 | `\d*` consumes exactly the maximal digit run |
| Sections.NumberMark | utiles/parse_pdf.py:7-8 | the optional `No`, `No.` or `#` mark stays within the text |
| Sections.MatchEnd | utiles/parse_pdf.py:6-12 | a match starts with its keyword, has a number after it, stays within the text and neither starts nor ends with whitespace |
| Sections.FindAll | utiles/parse_pdf.py:29 | `re.finditer` yields matches inside the text in ascending order without overlap |
| Sections.FindAllSound | utiles/parse_pdf.py:29 | every match found is a match of its pattern at its start offset |
| Sections.FindAllStep | utiles/parse_pdf.py:29 | after a match at an offset the scan resumes at its end; without one it resumes at the next offset |
| Sections.AcceptedTitles | utiles/parse_pdf.py:29-34 | a pattern contributes at most one title per match |
| Sections.AllMatches | utiles/parse_pdf.py:28-29 | the five patterns are tried in their fixed order, each over the whole page text |
| Sections.ScanPages | utiles/parse_pdf.py:20-34 | page i of the scan is the scan of the i-th page text, numbered from 1 |
| Sections.Positions | utiles/parse_pdf.py:18-34 | every hit lies on a page between 1 and the page count |
| Sections.PositionsSnoc | utiles/parse_pdf.py:20-34 | scanning one more page appends its hits, unless it is suppressed |
| Sections.PositionsQuiet | utiles/parse_pdf.py:28-34 | pages without titles add no hits |
| Sections.HitsOn | utiles/parse_pdf.py:34 | each title of a page becomes one hit on that page |
| Sections.Ranges | utiles/parse_pdf.py:43-49 | one section per de-duplicated entry |
| Sections.TitleShape | utiles/parse_pdf.py:30-33 | a title is the matched text with every whitespace run collapsed to one space, non-empty and without whitespace at its ends |
| Sections.AcceptedTitleSource | utiles/parse_pdf.py:29-34 | every accepted title comes from a match starting at offset 100 or less |
| Sections.AcceptedTitleFound | utiles/parse_pdf.py:31-34 | every match starting at offset 100 or less gives a title |
| Sections.MatchTitleSource | utiles/parse_pdf.py:28-34 | every title of a page comes from an early match of one of the patterns |
| Sections.MatchTitleFound | utiles/parse_pdf.py:28-34 | every early match of every pattern gives a title |
| Sections.MatchTitlesNone | utiles/parse_pdf.py:28-34 | without matches a page has no titles |
| Sections.MatchTitlesOnly | utiles/parse_pdf.py:28-34 | when only one pattern matches, the page's titles are that pattern's titles |
| Sections.PageTitleSource | utiles/parse_pdf.py:28-34 | a page's title is the title of an early match of one of the five patterns |
| Sections.PageTitleFound | utiles/parse_pdf.py:28-34 | every early match of the five patterns is a title of the page |
| Sections.PageTitlesOnly | utiles/parse_pdf.py:28-34 | when only one pattern matches, the page's titles are that pattern's accepted titles |
| Sections.PositionsSorted | utiles/parse_pdf.py:20-34 | hits are listed in page order |
| Sections.PositionSource | utiles/parse_pdf.py:25-34 | a hit lies on a page that is not suppressed, and its title is a title of that page |
| Sections.PositionFound | utiles/parse_pdf.py:25-34 | every title of a page that is not suppressed is a hit on that page |
| Sections.PositionsIff | utiles/parse_pdf.py:20-34 | a hit is listed iff its page exists, is not suppressed and has that title |
| Sections.DocumentHits | utiles/parse_pdf.py:20-34 | a hit is in the list iff its page exists, is not a front page with more than three pattern matches, and has that title |
| Sections.TitleSetMember | utiles/parse_pdf.py:36-41 | the seen set holds exactly the titles of the hits |
| Sections.DedupTitles | utiles/parse_pdf.py:36-41 | de-duplication loses no title |
| Sections.DedupFirst | utiles/parse_pdf.py:38-41 | each kept entry is the first hit with its title |
| Sections.DedupUnique | utiles/parse_pdf.py:36-41 | kept titles are pairwise distinct |
| Sections.DedupSorted | utiles/parse_pdf.py:36-41 | de-duplication keeps page order |
| Sections.DedupMember | utiles/parse_pdf.py:36-41 | every kept entry is one of the hits |
| Sections.RangesBounds | utiles/parse_pdf.py:43-49 | for page-ordered entries, every section satisfies 1 <= start <= end <= page count, and starts ascend |
| Sections.ParseResultBounds | utiles/parse_pdf.py:14-51 | every section of the result lies within the document with start <= end, in ascending start order |
| Sections.ParseResultUnique | utiles/parse_pdf.py:36-49 | no title appears twice in the result |
| Sections.ParseResultFirst | utiles/parse_pdf.py:36-43 | each section starts on the page of the first accepted occurrence of its title |
| Sections.ParseResultComplete | utiles/parse_pdf.py:36-49 | every accepted hit's title has a section |
| Sections.AppendMatchHits | utiles/parse_pdf.py:29-34 | the match loop appends a hit per match starting at offset 100 or less, titled by the stripped, space-collapsed match |
| Sections.AppendPageHits | utiles/parse_pdf.py:28-34 | the pattern loop appends the page's titles as hits |
| Sections.AppendPage | utiles/parse_pdf.py:25-34 | a suppressed front page adds nothing; any other page adds its hits |
| Sections.CollectPositions | utiles/parse_pdf.py:18-34 | the page loop collects the hits of every page in page order |
| Sections.UniqueSections | utiles/parse_pdf.py:36-41 | the seen-set loop keeps the first hit of every title |
| Sections.AssignRanges | utiles/parse_pdf.py:43-49 | the range loop gives each entry the page before the next entry's start when that is later, its own start page when not, and the page count for the last entry |
| Sections.ParsePdf | utiles/parse_pdf.py:14-51 | the procedure computes the result |
| SectionExamples.ParseDoc | utiles/parse_pdf.py:14-51 | a ten-page document with "Chapter 1" on page 2 and "Chapter 2" on page 6 yields Chapter 1 on pages 2-5 and Chapter 2 on pages 6-10 |
| SectionExamples.ParseCases | utiles/parse_pdf.py:36-41 | "CHAPTER 1" and "Chapter 1" are distinct titles, giving two one-page sections |
| SectionExamples.SamePageOrder | utiles/parse_pdf.py:43-49 | of two titles starting on one page, the first listed ends there and the second runs to the page before the next section |
| SectionExamples.RangesDoc | utiles/parse_pdf.py:43-49 | chapters found on pages 2 and 6 of ten pages span pages 2-5 and 6-10 |
| SectionExamples.TwoPagePositions | utiles/parse_pdf.py:20-34 | the hits of two pages are page 1's, then page 2's, each unless suppressed |
| SectionExamples.DedupTwo | utiles/parse_pdf.py:36-41 | two hits with different titles are both kept |
| SectionExamples.ScanBlank | utiles/parse_pdf.py:21 | an empty page text is not suppressed and has no titles |
| Text.Strip | utiles/process_pdf.py:97 | `str.strip()` gives a result no longer than its input that neither starts nor ends with whitespace |
| Text.StripChars | utiles/mcqs_generator.py:34 | `str.strip()` removes only whitespace and keeps every other character |
| Text.CollapseSpaces | utiles/parse_pdf.py:33 | whitespace runs become one space, with no two spaces adjacent; the non-space characters are unchanged |
| Text.CollapseIdempotent | utiles/parse_pdf.py:33 | collapsing twice equals collapsing once |
| Text.Split | utiles/mcqs_generator.py:42 | `split('\n')` gives at least one part and no part holds the separator |
| Text.JoinSplit | utiles/mcqs_generator.py:42 | joining the parts of a split with the separator gives the text back |
| Text.ParseIntToString | utiles/mcqs_generator.py:128 | a printed integer reads back as itself |
| Text.LowerStr | utiles/process_pdf.py:46 | `str.lower()` keeps the length and lowers each character in place |
| Text.StripStart | utiles/process_pdf.py:97 | `lstrip()` never lengthens its input, and its result does not start with whitespace |
| Text.StripEnd | utiles/process_pdf.py:97 | `rstrip()` never lengthens its input, and its result does not end with whitespace |
| Text.StripSolid | utiles/process_pdf.py:117 | stripping text that neither starts nor ends with whitespace changes nothing |
| Text.StripKeepsWord | utiles/process_pdf.py:46-59 | a word without whitespace at its ends that occurs in a text still occurs after stripping |
| Text.JoinSolid | utiles/process_pdf.py:110-111 | joining non-empty stripped parts gives a non-empty stripped text |
| Text.CollapseSolid | utiles/parse_pdf.py:33 | collapsing whitespace in stripped, non-empty text keeps it stripped and non-empty |
| Text.CollapseUnchanged | utiles/parse_pdf.py:33 | text with single spaces only and no leading whitespace is unchanged by collapsing |
| Text.NonSpaceChars | utiles/mcqs_generator.py:31 | the non-space characters are exactly the characters of the text that are not whitespace |
| Text.IndexOf | utiles/mcqs_generator.py:42 | the first index of a character in a text holds it, and no earlier index does |
| Text.NatToString | utiles/mcqs_generator.py:121 | `str(n)` of a natural number is a non-empty string of digits |
| Text.ParseNatToString | utiles/mcqs_generator.py:121 | a printed natural number reads back as itself |
| Editor.AddAnnot | utiles/pdf_editor.py:12 | adding an annotation appends it to the pending list and changes nothing else |
| Editor.ApplyRedactions | utiles/pdf_editor.py:13 | applying redactions commits the pending annotations as one batch and clears them |
| Editor.Rects | utiles/pdf_editor.py:9-11 | one rectangle per box |
| Editor.AddBoxesEffect | utiles/pdf_editor.py:9-12 | adding boxes succeeds iff every box has four coordinates; it then appends their rectangles in order and never commits |
| Editor.BboxesCommitOnce | utiles/pdf_editor.py:7-13 | `redact_by_bboxes` adds all rectangles and commits the page exactly once; with a malformed box it raises and commits nothing |
| Editor.Truncate | utiles/pdf_editor.py:17 | `hit_max=1000` keeps at most the first 1000 hits, and all of them when there are no more |
| Editor.AddAll | utiles/pdf_editor.py:18-19 | the hit loop appends every hit rectangle in order |
| Editor.TextAll | utiles/pdf_editor.py:16-21 | the text search touches every page of the document |
| Editor.TextPageEffect | utiles/pdf_editor.py:15-21 | a page with hits commits at most 1000 of them, in the order found, in one batch; a page without hits is unchanged |
| Editor.BoxAll | utiles/pdf_editor.py:48-52 | the box is tried on every page of the document |
| Editor.IgnoredActionNoop | utiles/pdf_editor.py:38 | an action of another type, or without a truthy box, changes nothing, even a text action |
| Editor.Defaults | utiles/pdf_editor.py:33-34 | a missing scope means the current page; a missing page means page index 0, otherwise index page - 1 |
| Editor.CurrentPageOnly | utiles/pdf_editor.py:39-40 | a current-page action succeeds iff the page exists and the box has four coordinates; it then commits the box on that page alone |
| Editor.SearchEveryPage | utiles/pdf_editor.py:44-45 | a document-wide text action, or a watermark action with content, ignores the box and commits the hits of each page that has some |
| Editor.NoHitsNoop | utiles/pdf_editor.py:44-45 | a document-wide search without hits on any page changes nothing |
| Editor.BoxEveryPage | utiles/pdf_editor.py:46-52 | a document-wide box action commits the box on every page; a malformed box is reported per page and changes nothing |
| Editor.RunAppend | utiles/pdf_editor.py:31 | running two action lists in sequence equals running their concatenation, and a failure stops the run |
| Editor.GrowsTrans | utiles/pdf_editor.py:31-52 | committed history only ever grows across several steps |
| Editor.StepGrows | utiles/pdf_editor.py:31-52 | one action keeps the page count and page identities and only appends committed batches |
| Editor.RunGrows | utiles/pdf_editor.py:31-52 | a whole run keeps the page count and identities and only appends committed batches |
| Editor.Document.constructor | utiles/pdf_editor.py:29 | the opened document holds the given pages |
| Editor.Document.RedactByBboxes | utiles/pdf_editor.py:7-13 | in-place redaction of one page succeeds iff the page exists and every box is a rectangle; only that page changes |
| Editor.Document.RedactTextOnPage | utiles/pdf_editor.py:17-21 | one page of the text search changes only that page |
| Editor.Document.RedactByText | utiles/pdf_editor.py:15-21 | the in-place text search leaves every page as the per-page search specifies |
| Editor.Document.RedactBoxEverywhere | utiles/pdf_editor.py:48-52 | the page loop with per-page error reporting redacts the box on every page |
| Editor.Document.ApplyAction | utiles/pdf_editor.py:32-52 | one action succeeds iff its step does, and then leaves the pages that step specifies |
| Editor.Document.ApplyActions | utiles/pdf_editor.py:31-52 | the action loop succeeds iff the run does, and then leaves the run's pages |
| Mcq.KeepAllowedChars | utiles/mcqs_generator.py:33 | the filter keeps exactly the word, whitespace and `.,?!` characters of its input |
| Mcq.KeepAllowedUnchanged | utiles/mcqs_generator.py:33 | text of allowed characters only passes the filter unchanged |
| Mcq.Preprocess | utiles/mcqs_generator.py:28-34 | cleaned text holds only word characters, spaces and `.,?!`; its only whitespace is the plain space, and it neither starts nor ends with whitespace |
| Mcq.PreprocessKeeps | utiles/mcqs_generator.py:28-34 | a non-space character is in the cleaned text iff it is in the input and allowed |
| Mcq.PreprocessDoubleSpace | utiles/mcqs_generator.py:30-33 | "a # b" is cleaned to "a  b": removing a character can leave two adjacent spaces |
| Mcq.PreprocessOneLine | utiles/mcqs_generator.py:30-31 | cleaned text contains no line break |
| Mcq.NumberedExamples | utiles/mcqs_generator.py:49 | "12. Networks" starts like a numbered heading; "12 Networks" does not |
| Mcq.QuestionNumberExample | utiles/mcqs_generator.py:48 | "q  no 3" matches `Q\s*No` ignoring case |
| Mcq.DefaultNotHeading | utiles/mcqs_generator.py:40-50 | "General" is not itself a heading |
| Mcq.FindTopic | utiles/mcqs_generator.py:52 | a dictionary lookup finds the first and only entry with the name, or none |
| Mcq.Append | utiles/mcqs_generator.py:52 | appending to `topics[name]` grows that list by the line, leaves every other list unchanged, creates a missing key at the end and keeps keys distinct |
| Mcq.AppendEntry | utiles/mcqs_generator.py:52 | after an append each list is the old list, the old list with the line added, or the new list holding just the line |
| Mcq.Scan | utiles/mcqs_generator.py:37-52 | topic keys stay distinct |
| Mcq.IdentifyTopics | utiles/mcqs_generator.py:36-54 | the line loop computes the topics of the text |
| Mcq.ReadLine | utiles/mcqs_generator.py:44-52 | one pass of the loop body: a heading becomes the current topic, a line of more than 20 characters is appended under the current topic, and any other line changes nothing |
| Mcq.TopicsFiled | utiles/mcqs_generator.py:40-52 | the list under each name is exactly the content lines read while that topic was current, in order |
| Mcq.ScanWellFormed | utiles/mcqs_generator.py:39-52 | no topic has an empty list, and every stored line is stripped, non-empty, longer than 20 characters and not a heading |
| Mcq.AppendWellFormed | utiles/mcqs_generator.py:51-52 | appending stripped content keeps the topics well formed |
| Mcq.CurrentDefault | utiles/mcqs_generator.py:40 | before any heading, the current topic is "General" |
| Mcq.CurrentHeading | utiles/mcqs_generator.py:46-50 | after a heading, the current topic is the last heading read, stripped |
| Mcq.PreprocessedSingleTopic | utiles/mcqs_generator.py:28-54 | topic detection on cleaned text yields at most one topic |
| Mcq.RunLength | utiles/mcqs_generator.py:179 | a word run is the maximal prefix of `\w` characters |
| Mcq.Words | utiles/mcqs_generator.py:179-183 | every word run is non-empty and made of `\w` characters |
| Mcq.RunEndUnique | utiles/mcqs_generator.py:179-183 | a run of word characters bounded by `\b` is determined by its start |
| Mcq.RunShift | utiles/mcqs_generator.py:179-183 | the runs of a suffix are the runs of the whole text shifted by the cut, unless a run of the suffix would start right at the cut after a word character |
| Mcq.ListsRunsSkip | utiles/mcqs_generator.py:179-183 | a leading non-word character starts no run and moves every run of the rest on by one |
| Mcq.ListsRunsTake | utiles/mcqs_generator.py:179-183 | a leading run of word characters is the first run, and the other runs are those of the rest moved on by its length |
| Mcq.WordsAreRuns | utiles/mcqs_generator.py:179-183 | the k-th word is the maximal `\w` run starting at the k-th start; starts increase strictly and every maximal run starts at one of them, so each run occurrence is listed exactly once, in text order |
| Mcq.WordsMember | utiles/mcqs_generator.py:179-183 | a string is a word iff it is `s[i..j]` for a run: all word characters, with `\b` at both ends |
| Mcq.Acronyms | utiles/mcqs_generator.py:179 | the acronym scan yields exactly the words of 2 to 5 capitals |
| Mcq.Capitalised | utiles/mcqs_generator.py:183 | the capitalised-word scan keeps every capitalised word with all its occurrences, and nothing else |
| Mcq.CountTerms | utiles/mcqs_generator.py:184-187 | `word_freq` holds exactly the words longer than 3 letters, each with its number of occurrences |
| Mcq.AddFrequent | utiles/mcqs_generator.py:190-192 | the item loop adds exactly the words counted more than twice, in any visiting order |
| Mcq.ExtractConcepts | utiles/mcqs_generator.py:173-194 | a string is a concept iff it is a word of the text that has 2 to 5 capitals, or is a capitalised word longer than 3 letters occurring more than twice; the result has no duplicates |
| Mcq.Repeat | utiles/mcqs_generator.py:116 | `c * n` is n copies of c |
| Mcq.OptionLines | utiles/mcqs_generator.py:125-126 | one `- [ ] ` line per option, in order |
| Mcq.QuestionLines | utiles/mcqs_generator.py:120-129 | a question block has 8 lines plus one per option |
| Mcq.TerminatedAppend | utiles/mcqs_generator.py:112-129 | writing two runs of lines equals writing their concatenation |
| Mcq.OptionsAsLines | utiles/mcqs_generator.py:125-126 | the option writes are the option lines, each ended by a newline |
| Mcq.QuestionAsLines | utiles/mcqs_generator.py:120-129 | the writes for a question are its block's lines, each ended by a newline |
| Mcq.QuestionsAsLines | utiles/mcqs_generator.py:120-129 | the same for all questions of a topic |
| Mcq.TopicAsLines | utiles/mcqs_generator.py:115-129 | the writes for a topic are its block's lines, each ended by a newline |
| Mcq.RenderAsLines | utiles/mcqs_generator.py:112-129 | the file is its layout lines, each ended by a newline |
| Mcq.RenderAppend | utiles/mcqs_generator.py:115 | topics are written one after the other, independently |
| Mcq.SplitTerminated | utiles/mcqs_generator.py:112-129 | splitting newline-ended lines at newlines gives the lines back, then an empty part |
| Mcq.FileOneLine | utiles/mcqs_generator.py:112-129 | when no name, question or option holds a newline, no layout line holds one |
| Mcq.FileRoundTrip | utiles/mcqs_generator.py:112-129 | when no name, question or option holds a newline, splitting the file at newlines gives its layout lines followed by one empty part after the final newline |
| Mcq.TopicHeader | utiles/mcqs_generator.py:116-118 | each topic block opens with an empty line, a rule of 50 `=`, `TOPIC: ` and the name (which reads back), and another rule |
| Mcq.QuestionBlock | utiles/mcqs_generator.py:120 | the questions of a topic are laid out in order, the k-th block numbered from 1 |
| Mcq.QuestionFields | utiles/mcqs_generator.py:121-128 | the number line reads back as the question number; the question follows; each option is a `- [ ] ` line; the answer line reads back as `correct_answer + 1` |

## Left out

- The document libraries (PyMuPDF, pdfplumber, PyPDF2) are not modelled. Pages, spans, images, pixmaps, placements and search hits are plain input data. `search_for` is a function parameter. Committing redactions appends the pending rectangles as one batch. The white fill and `PDF_REDACT_IMAGE_REMOVE` are not modelled.
- `save`, `open` and `close` and all file I/O are left out. This includes the output paths, the question file being written, and reading a PDF for the question tool.
- MD5 is modelled as the sampled bytes themselves, i.e. an ideal hash. Collisions between different samples are not modelled.
- Floating point: sizes, areas, the 0.15/0.85 bands and the 0.005 ratio are reals. The progress percentage printed by `parse_pdf` and all progress and error printing are left out.
- `Rect.intersects` is a stated overlap predicate: both rectangles non-empty, with an overlap of positive size. The library's own edge cases are not visible.
- Character classes, casing (`lower`, `isupper`, `re.IGNORECASE`) and `strip` are ASCII only. Unicode letters, digits and whitespace are not modelled.
- The regular expressions are hand-coded recognisers for the fixed patterns only. There is no general regex engine.
- OCR (`pytesseract`) is not modelled; it is imported but unused, and `enable_ocr` is ignored.
- Exceptions from the libraries inside `clean_pdf`'s image loop are modelled as a skipped image, because an unavailable pixmap or placement list is handled that way. Exceptions from other library calls are not modelled.
- In `pdf_editor.py`, a negative page index wraps around in PyMuPDF. The model treats any index outside 0 to page count - 1 as a failure.
- A page value that `int()` cannot convert is not modelled. The action's page is the converted integer.
- A JSON `null` scope is treated like an absent one.
- `fitz.Rect(bbox)` is modelled as accepting exactly four coordinates.
- Editor.Document.ApplyActions: after an action raises, the pages are left unspecified, because the run then ends without saving anything.
- Editor.Document.RedactByBboxes: the partially annotated page left behind by a malformed box is stated through the specification function only.
- Mcq.ExtractConcepts: the result is a set. The order of `list(concepts)` is not modelled, because it depends on Python's set iteration order.
- The question tool's model pipeline is not modelled. This covers `generate_mcqs_from_sentence`, `create_mcqs_from_topics`, `generate_template_mcqs`, `generate_from_pdf` and `main`, which use nltk, a transformers model and `random`. Only the text heuristics and the file layout are modelled.
- `utiles/google_docs_converter.py` (Google Drive API and OAuth) and `utiles/pdf_utils.py` (library wrappers) are not part of this model.
- The JavaScript server, routes, controllers, database access and browser code are not part of this model.
- Command-line and JSON argument handling in the `__main__` blocks is not modelled.
