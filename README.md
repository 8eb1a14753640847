# BookMind.ai export and outline core in Dafny

This project models two services of the BookMind.ai authoring app.

- **The export service** (`services/exportService.ts`):
  - `createPdf` is a small layout engine. It keeps a vertical cursor `y` and a current page. It draws the title in bold at size 24. It then handles each line of the book:
    - a `#` line becomes a header;
    - any other non-blank line is a paragraph, wrapped greedily against `width - 2 * margin`;
    - a blank line becomes vertical space.
    - Before each drawn run, `drawText` decides whether to start a new page.
  - `exportAsPdf`, `exportAsTxt` and `exportAsZip` derive file names from the title. `exportAsZip` also puts two named entries into an archive.
- **The Gemini service** (`services/geminiService.ts`), only its deterministic parts:
  - the post-processing of the outline response (blank lines dropped, title taken from the first `title:` line, the structure from the other lines);
  - the fixed fallback outline;
  - `formatFinalDetails`;
  - the plan-based `task` string of the book prompt;
  - the string `generateBookContent` returns when generation fails.

The files:

- `wrappers.dfy`: `Option` and `Result`.
- `sequences.dfy`: JavaScript's `filter`, `find` and `findIndex`, with their lemmas.
- `strings.dfy`: JavaScript's `trim`, `split`, `join`, `startsWith`, `indexOf` and `replace(/ /g, '_')`, with the split/join round trips.
- `layout.dfy`: the layout as pure functions.
  - A `Cursor` is the closure state of `createPdf`: `y`, the finished pages, and the current page.
  - `Draw` is `drawText`. `Wrap` is the greedy wrap loop. `LayoutLine` is the three-way dispatch. `LayoutDocument` is the whole document.
- `layout_properties.dfy`: what the layout guarantees.
  - the page-break rule;
  - pages are only ever appended;
  - no run is lost or reordered by page breaks;
  - where runs are placed;
  - the wrap-width bound;
  - word coverage.
- `export_service.dfy`: the imperative model of `createPdf`.
  - The class `PdfLayout` holds the mutable state. Its methods `DrawText`, `DrawParagraph` and `DrawLine` are proved to compute the pure layout.
  - `CreatePdf` loops over the lines.
  - The export functions and the in-place `Zip` object.
- `gemini_service.dfy`: the outline parser, the fallback, `formatFinalDetails`, the plan-based `task` choice and the content error string.

pdf-lib appears through two parameters:

- **Font metrics and page size**: the `Env` value holds the page width and height, and `widthOfTextAtSize` and `heightAtSize` as uninterpreted functions on reals.
- **Rendering and `pdfDoc.save()`**: the function `render` turns the laid-out pages into bytes or an error.

The Gemini network calls become a `Result` parameter. Its failure stands for anything the `try` block throws.

The model follows the code as written:

- **Header level**: it counts every `#` in the line, not a leading run. So a header with a `#` inside its text gets a deeper level, and the text is cut after that many characters. The `|| 1` default in the source never applies, because a header line always contains a `#`.
- **Header size**: `26 - 4 * level` has no floor.
- **Paragraph words**: they are split on `' '` only, not on all whitespace.
- **`exportAsZip`**:
  - It has no fallback. A failed `createPdf` rejects the export, and no archive with a diagnostic entry is produced.
  - The archive holds two entries, named with the raw title.
  - There is no metadata entry and no date stamp in any file name.
  - Sanitising replaces only spaces, with `_`.

## Model

| member | source | states |
|---|---|---|
| Layout.Pages | services/exportService.ts:16 | the document always has at least one page, and its last page is the one being drawn on |
| Layout.Start | services/exportService.ts:15-25 | the fresh document: one empty page and `y = height - margin`; `TitleOnFirstPage` and `StartHasNoRuns` state it |
| Layout.DrawAll | services/exportService.ts:65-70 | the successive `drawText` calls for a paragraph's lines; `DrawAllAppend`, `DrawAllStyles`, `DrawAllGrows` and `DrawAllWellPlaced` state it |
| Layout.Extend | services/exportService.ts:61 | the candidate `currentLine + ' ' + word`, or `word` alone while `currentLine` is empty; `JoinWordsAppend` states it is the `' '`-join of its words |
| Layout.FitsLine | services/exportService.ts:62 | the wrap test at size 12 against `width - margin * 2`; `WrapFromStep` and `ParagraphWidthBound` state its role |
| Layout.HeaderSize | services/exportService.ts:55 | `26 - level * 4` with no lower bound; `LayoutLineStyles` states that headers are drawn at it |
| Layout.Top | services/exportService.ts:25 | the line position `height - margin` that every page starts at; `Draw`'s contract and `TitleOnFirstPage` place runs at it after a break |
| Layout.WrapWidth | services/exportService.ts:62 | the usable width `width - margin * 2` the wrap test compares against; `ParagraphWidthBound` states the bound against it |
| Layout.DrawAllAppend | services/exportService.ts:60-71 | drawing one more wrapped line is one more `drawText` after the earlier ones |
| Layout.WrapFromStep | services/exportService.ts:60-68 | one turn of the word loop either adopts the candidate `currentLine + ' ' + word` when it measures below the width, or draws `currentLine` and restarts from the word |
| Layout.WrapAdvance | services/exportService.ts:60-68 | the loop invariant "lines drawn so far ++ lines still to come = all wrapped lines" survives each turn |
| Layout.WrapFinish | services/exportService.ts:69-71 | after the last word, only a non-empty `currentLine` is still drawn |
| Layout.Classify | services/exportService.ts:50-56 | a line is a header exactly when it starts with `#`; its level is the count of every `#` in the line, so at least 1, and its text is the line without its first `level` characters, trimmed; it is blank exactly when it does not start with `#` and is all whitespace; otherwise it is a paragraph of its `' '`-separated words |
| Layout.Draw | services/exportService.ts:27-44 | `drawText` adds a page exactly when `y < margin + textHeight` and leaves the earlier pages unchanged; the new run is the last of the current page, at `x = margin` and `textHeight + 5` above the new cursor; it is alone on a fresh page at `height - margin`, or follows the current page's runs at the old `y` |
| Layout.WrapFrom | services/exportService.ts:58-71 | from any point of the word loop, at most one line per remaining word plus one is drawn; `WrapFromStep`, `WrapFromBound` and `WrapFromGroups` state the rest |
| Layout.Wrap | services/exportService.ts:57-71 | a paragraph of `n` words draws at most `n + 1` lines, and none for no words; `ParagraphWidthBound` and `WrapCoverage` state its width bound and word coverage |
| Layout.LayoutLine | services/exportService.ts:50-74 | one body line; its contract is stated by `LayoutLineStyles`, `LayoutLineGrows`, `BlankLineOnlyMovesCursor` and `LayoutLineWellPlaced` |
| Layout.LayoutLines | services/exportService.ts:49-75 | the `forEach` over the body lines; its contract is stated by `LayoutLinesStyles`, `LayoutLinesGrows` and `LayoutLinesAppend` |
| Layout.AfterTitle | services/exportService.ts:46-47 | the title drawn bold at 24, then 20 more units down; `TitleOnFirstPage` states where the title lands and where the cursor ends up |
| Layout.LayoutDocument | services/exportService.ts:13-77 | the whole layout of `createPdf`; its contract is stated by `DocumentRuns`, `DocumentPlacement`, `DocumentUnderTop` and `LongerBodyExtendsDocument` |
| LayoutProperties.DrawStep | services/exportService.ts:27-44 | `drawText` adds a page exactly when `y < margin + textHeight`; the run goes at `x = margin`, at the top of the new page or at `y`; `y` then drops by exactly `textHeight + 5`; no run is lost |
| LayoutProperties.BlankLineOnlyMovesCursor | services/exportService.ts:72-74 | a blank line lowers `y` by 12 and adds no run and no page |
| LayoutProperties.GrowsTransitive | services/exportService.ts:32 | "pages are only appended, earlier pages unchanged, the last page only extended" is transitive |
| LayoutProperties.DrawGrows | services/exportService.ts:31-43 | one `drawText` keeps every earlier page and only appends to the current page or adds a new one |
| LayoutProperties.DrawAllGrows | services/exportService.ts:60-71 | so do the drawn lines of a paragraph |
| LayoutProperties.LayoutLineGrows | services/exportService.ts:50-74 | so does one body line of any kind |
| LayoutProperties.LayoutLinesGrows | services/exportService.ts:49-75 | so does any sequence of body lines |
| LayoutProperties.LayoutLinesAppend | services/exportService.ts:49 | laying out `xs + ys` is laying out `ys` from the state left by `xs` |
| LayoutProperties.LongerBodyExtendsDocument | services/exportService.ts:49-75 | appending lines to the body extends the pages of the shorter body and never reduces the page count |
| LayoutProperties.TitleOnFirstPage | services/exportService.ts:15-47 | the document starts with one page; when the title's height fits above the bottom margin, the title is the only run of that page, at `x = margin`, `y = height - margin`; otherwise the first page stays empty and the title opens a second page at the same position; either way the cursor ends at `height - margin - (textHeight + 5) - 20` |
| LayoutProperties.StartHasNoRuns | services/exportService.ts:15-16 | the fresh document has no runs |
| LayoutProperties.DrawStyles | services/exportService.ts:36-42 | `drawText` appends exactly one run with its text, font and size |
| LayoutProperties.DrawAllStyles | services/exportService.ts:60-71 | a paragraph's drawn lines become runs at size 12 in the regular font, in order |
| LayoutProperties.LayoutLineStyles | services/exportService.ts:50-74 | a header line adds one bold run at `26 - 4 * level` with its trimmed text; a paragraph adds its wrapped lines; a blank line adds nothing |
| LayoutProperties.LayoutLinesStyles | services/exportService.ts:49-75 | the body's runs are the runs of its lines, line by line, in order |
| LayoutProperties.DocumentRuns | services/exportService.ts:46-75 | the document's runs, read page by page, are the bold size-24 title followed by each body line's runs in order: page breaks drop, duplicate or reorder nothing |
| LayoutProperties.ProportionalMetrics | services/exportService.ts:28 | heights proportional to the size, as pdf-lib's standard fonts report them, leave room for one line of every size up to 24 on any page tall enough for one title line, and are never negative for a non-negative size |
| LayoutProperties.DrawWellPlaced | services/exportService.ts:27-44 | `drawText` at a size up to 24 keeps every run at `x = margin` and, when the page has room for one line of each such size, at `y >= margin + textHeight` |
| LayoutProperties.DrawAllWellPlaced | services/exportService.ts:60-71 | the same for a paragraph's lines at one size up to 24 |
| LayoutProperties.LayoutLineWellPlaced | services/exportService.ts:50-74 | the same for one body line of any kind: headers are drawn at `26 - 4 * level <= 22`, paragraphs at 12, and the blank-line gap places no run |
| LayoutProperties.LayoutLinesWellPlaced | services/exportService.ts:49-75 | the same for any sequence of body lines |
| LayoutProperties.DocumentPlacement | services/exportService.ts:25-44 | cursor bound: every run of the document is at `x = margin`, and, when the page has room for one line of each size up to 24, at `y >= margin + textHeight` |
| LayoutProperties.DrawUnderTop | services/exportService.ts:31-43 | with non-negative heights, `drawText` at a non-negative size puts no run and leaves no cursor above `height - margin` |
| LayoutProperties.DrawAllUnderTop | services/exportService.ts:60-71 | the same for a paragraph's lines |
| LayoutProperties.LayoutLineUnderTop | services/exportService.ts:50-74 | the same for one body line that is not a header with more than six `#` |
| LayoutProperties.LayoutLinesUnderTop | services/exportService.ts:49-75 | the same for any such sequence of body lines |
| LayoutProperties.DocumentUnderTop | services/exportService.ts:25-75 | with non-negative heights and no header deeper than six `#`, no run of the document is above `height - margin` |
| LayoutProperties.WrapFromBound | services/exportService.ts:60-71 | each drawn line measured below the width when adopted, or is a single word, or is the empty line under construction |
| LayoutProperties.ParagraphWidthBound | services/exportService.ts:57-71 | wrap-width bound: a drawn paragraph line that is too wide is a single word without a space, or the empty first line |
| LayoutProperties.FirstWordOverflowDrawsEmptyLine | services/exportService.ts:61-66 | when the first word already overflows, an empty line is drawn first |
| LayoutProperties.DropLeadingEmptyAppend | services/exportService.ts:61 | the line built so far ignores leading empty words and extends with every later word |
| LayoutProperties.DropLeadingEmptyAllEmpty | services/exportService.ts:61 | a group that builds the empty line has only empty words |
| LayoutProperties.JoinAppend | services/exportService.ts:61 | adding a word to a joined line appends the separator and the word |
| LayoutProperties.JoinWordsAppend | services/exportService.ts:61 | the candidate `currentLine ? currentLine + ' ' + word : word` is the `' '`-join of its words |
| LayoutProperties.WrapFromGroups | services/exportService.ts:58-71 | from any point of the loop, the drawn lines are joins of consecutive groups of the remaining words, in order |
| LayoutProperties.WrapCoverage | services/exportService.ts:58-71 | word coverage: the wrapped lines are the `' '`-joins of consecutive groups of the words, each word used once in order; only the first group can be empty; the words left over are empty ones whose final empty line is not drawn |
| ExportService.PdfLayout.constructor | services/exportService.ts:15-25 | a new layout has one empty page and `y = height - margin` |
| ExportService.PdfLayout.DrawText | services/exportService.ts:27-44 | the `drawText` closure updates `y`, the pages and the current page exactly as the layout's `Draw` |
| ExportService.PdfLayout.DrawLine | services/exportService.ts:49-75 | the `forEach` callback does to the state what `LayoutLine` describes for the line |
| ExportService.PdfLayout.DrawWrapped | services/exportService.ts:65-70 | drawing a wrapped line advances the state by one more line of the paragraph |
| ExportService.PdfLayout.DrawParagraph | services/exportService.ts:57-71 | the word loop with its mutable `currentLine` draws exactly the lines of `Wrap` of `line.split(' ')`, in order |
| ExportService.CreatePdf | services/exportService.ts:13-78 | the bytes are `save` applied to the pages of `LayoutDocument(title, content)` |
| ExportService.DownloadName | services/exportService.ts:84 | `title.replace(/ /g, '_')` has the title's length, contains no space and changes no other character |
| ExportService.DownloadNameIdempotent | services/exportService.ts:84 | sanitising twice is sanitising once |
| ExportService.ExportAsPdf | services/exportService.ts:81-85 | a successful render is saved as `<sanitised title>.pdf`; a failure rejects the export |
| ExportService.ExportAsTxt | services/exportService.ts:87-90 | the content is saved verbatim under `DownloadName(title) + ".txt"`, a name with the title's length plus four and no space |
| ExportService.Zip.constructor | services/exportService.ts:94 | a new archive is empty |
| ExportService.Zip.File | services/exportService.ts:96-99 | `zip.file` adds or replaces one entry and changes no other |
| ExportService.ArchiveName | services/exportService.ts:102 | the archive is named `BookMind.ai_` + sanitised title + `.zip` |
| ExportService.ArchiveFiles | services/exportService.ts:96-99 | the archive's map has exactly two keys: `<title>.txt` with the content verbatim and `<title>.pdf` with the document bytes |
| ExportService.ExportAsZip | services/exportService.ts:92-103 | on success, the archive named by `ArchiveName` holds exactly `ArchiveFiles`; a failed `createPdf` rejects the export |
| Strings.Trim | services/exportService.ts:53 | `trim()` is the stretch of the string that starts after its leading whitespace, is followed only by whitespace, and has no whitespace at either end |
| Strings.StartsWith | services/exportService.ts:50 | `startsWith`: the prefix is the string's first characters; `Classify` and `IsTitleLine` state the dispatch built on it |
| Strings.Join | services/geminiService.ts:51 | `join`; `JoinSplit`, `SplitJoin` and `JoinAppend` state its relation to `split` and to one more part |
| Strings.CountAppend | services/exportService.ts:52 | the number of `#` matches in a concatenation is the sum of the two counts |
| Strings.TrimEmptyIffAllWhitespace | services/geminiService.ts:46 | `line.trim() === ''` exactly when every character is whitespace |
| Strings.Count | services/exportService.ts:52 | the number of `#` matches is at most the length, and zero exactly when there is no `#` |
| Strings.IndexOf | services/geminiService.ts:49 | `indexOf(':')` is the first `:`, or -1 when there is none |
| Strings.ReplaceAll | services/exportService.ts:84 | the global replace keeps the length and changes exactly the matching characters |
| Strings.Split | services/exportService.ts:59 | `split` yields at least one part |
| Strings.SplitPartsLackSeparator | services/exportService.ts:59 | no part of a split contains the separator |
| Strings.JoinSplit | services/geminiService.ts:46 | joining a split with its separator gives back the text |
| Strings.SplitJoin | services/geminiService.ts:51 | splitting a join of separator-free parts gives back the parts |
| Strings.SplitAround | services/exportService.ts:49 | splitting around a separator splits each side |
| Sequences.Filter | services/geminiService.ts:46 | `filter` keeps only elements that pass, every passing element of the list is in the result, and the list never grows |
| Sequences.FilterCounts | services/geminiService.ts:46 | `filter` keeps every copy of a passing element, as often as it occurs in the list, and no copy of a failing one |
| Sequences.FilterAppend | services/geminiService.ts:51 | filtering a list with one more element is filtering the list, then keeping that element when it passes |
| Sequences.FilterIsSubsequence | services/geminiService.ts:51 | `filter` preserves order |
| Sequences.FilterTwice | services/geminiService.ts:46-51 | two filters are one filter with both conditions |
| Sequences.FindIndex | services/geminiService.ts:48 | the position of the first matching element, or nothing when none matches |
| Sequences.Find | services/geminiService.ts:48 | `find` returns nothing exactly when no element matches, and otherwise the first matching element of the list: one that occurs at a position before which no element matches |
| Sequences.FindThroughFilter | services/geminiService.ts:46-48 | dropping elements that never match does not change what `find` returns |
| GeminiService.ToLower | services/geminiService.ts:48 | `toLowerCase` keeps the length and lower-cases each ASCII letter |
| GeminiService.IsTitleLine | services/geminiService.ts:48 | a line whose lower-cased form starts with `title:`; `TitlePrefixColon` and `TitleLineNotBlank` state its properties |
| GeminiService.TitleText | services/geminiService.ts:49 | the text after the line's first `:`, trimmed; `TitleTextAfterPrefix` states that it is the text after `title:` |
| GeminiService.ParseOutline | services/geminiService.ts:45-53 | the parsing of a response; its contract is stated by `OutlineTitle` and `OutlineStructure` |
| GeminiService.NotBlank | services/geminiService.ts:46 | the blank-line filter callback `line.trim() !== ''`; `TrimEmptyIffAllWhitespace` states it is false exactly for all-whitespace lines |
| GeminiService.NonBlankLines | services/geminiService.ts:46 | `text.split('\n').filter(...)`; `OutlineStructure` and `OutlineTitle` state what survives it |
| GeminiService.NotTitle | services/geminiService.ts:51 | the structure filter callback `!line.toLowerCase().startsWith('title:')`; `OutlineStructure` states that every title line is removed |
| GeminiService.TitlePrefixColon | services/geminiService.ts:48-49 | on a `title:` line, the sixth character is the first `:` |
| GeminiService.TitleTextAfterPrefix | services/geminiService.ts:49 | the title is the text after `title:`, trimmed |
| GeminiService.TitleLineNotBlank | services/geminiService.ts:46-48 | a `title:` line is never dropped as blank |
| GeminiService.OutlineTitle | services/geminiService.ts:45-49 | the title comes from the first line of the whole response whose lower-cased form starts with `title:`, as the text after it, trimmed; blank lines play no part; with no such line the title is the topic |
| GeminiService.OutlineStructure | services/geminiService.ts:45-51 | the structure lines are all non-blank non-title lines of the response in their original order: every `title:` line is removed, no line is blank, and splitting the structure on newlines gives them back |
| GeminiService.GenerateBookOutline | services/geminiService.ts:36-61 | a failure yields the topic as title and a structure whose lines are exactly the five fixed chapter lines; a success yields the parsed response |
| GeminiService.FallbackChapters | services/geminiService.ts:59 | the fallback structure splits into the five fixed chapter lines |
| GeminiService.FallbackJoin | services/geminiService.ts:59 | the fallback structure is the five chapter lines joined with newlines |
| GeminiService.FallbackTitlesSingleLine | services/geminiService.ts:59 | no fallback chapter line contains a newline |
| GeminiService.LabelledFields | services/geminiService.ts:72-75 | the four labels paired with their fields in the order author, dedication, quotes, cover; `FinalDetailsPushes` states that this order is the order of the pushes |
| GeminiService.RenderFields | services/geminiService.ts:72-75 | one `label + field` part per field, the same number of parts as fields and each part the label followed by its field |
| GeminiService.Pushed | services/geminiService.ts:72-75 | what one `if (field) parts.push(label + field)` contributes; `FinalDetailsPushes` and `FormatFinalDetails` state that the four of them build the block |
| GeminiService.PushField | services/geminiService.ts:72-75 | each conditional `push` adds the labelled part of its field exactly when the field is non-empty |
| GeminiService.FinalDetailsText | services/geminiService.ts:70-78 | the reference block: the labelled non-empty fields, filtered in the order author, dedication, quotes, cover and joined by newlines, or `None provided.`; `FinalDetailsPushes` and `FinalDetailsParts` state its properties |
| GeminiService.FinalDetailsPushes | services/geminiService.ts:70-78 | the four conditional pushes produce one labelled part per non-empty field, in the order author, dedication, quotes, cover |
| GeminiService.FormatFinalDetails | services/geminiService.ts:70-78 | the `parts` accumulation returns the non-empty labelled fields joined by newlines, or `None provided.` when there are none |
| GeminiService.FinalDetailsParts | services/geminiService.ts:70-78 | the block has one part per non-empty field, and it is `None provided.` exactly when all four fields are empty |
| GeminiService.TaskDescription | services/geminiService.ts:66-68 | the `task` choice; its contract is stated by `TaskSelection` |
| GeminiService.TaskSelection | services/geminiService.ts:66-68 | Pro and Creator get the same task; the Free task is `t('plan_free_desc')` whatever the language; the paid task is `t('plan_pro_desc')` followed by ` in ` and the language |
| GeminiService.GenerateBookContent | services/geminiService.ts:103-118 | the text on success; on failure `Error generating content: ` followed by the error's message for an `Error`, else the fixed unknown-error string |

## Left out

- pdf-lib itself is not modelled: `PDFDocument.create`, `embedFont`, the run colour and the bytes `pdfDoc.save()` produces. Pages are abstract lists of runs, and saving is the parameter `render`, which may fail.
- Real font metrics and the default page size come from the library. They are parameters on reals, not floating-point values.
- Blob creation, `window.saveAs`, JSZip compression and `generateAsync` are not modelled. An export yields the file name and the content it would save; an archive is a map from entry name to content.
- Concurrency is not modelled: the `await`s are sequential steps.
- Text units:
  - Strings are sequences of characters. JavaScript's UTF-16 code units are not distinguished.
  - `toLowerCase` is modelled for ASCII letters only. Full Unicode case mapping is not modelled. It could change the length of a line or turn a non-ASCII character into a letter of `title:`.
- The Gemini network calls, `getAI` and the API-key check are not modelled, and neither are the prompt texts around the final-details block and the `task` string (`generateOutlinePrompt`, the rest of `generatePrompt`). Their outcome is a `Result` parameter.
- `console.error` logging is not modelled.
- The React UI, localStorage persistence, translations and the wiring of the export buttons are not part of this model.
- LayoutProperties.DocumentPlacement: the lower bound `y >= margin + textHeight` is stated only when the page has room for one line of each size up to 24. The code never checks the page geometry, and on a shorter page a run lands below the margin.
- LayoutProperties.DocumentUnderTop: the upper bound `y <= height - margin` is stated only when every height is non-negative and no header has more than six `#`. pdf-lib reports negative heights for the negative font sizes such headers get, and then the cursor can rise above the top line.
- ExportService.ArchiveFiles: entry names are flat keys. JSZip also creates a folder entry for each `/` in a name, so a title containing `/` gives more entries than the two modelled.
