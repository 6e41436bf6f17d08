# PDF label stamper: a Dafny model of its page component

The repository is a single React page, `app/page.tsx`. A user drops a PDF (or
picks one with a file input). The page stamps the text "Made In China" near the
bottom of every page with `pdf-lib`, reports progress while it works, and
downloads the result as `<name>-processed.pdf`.

This project models the logic under that page:

- the `processPDF` state machine: the `processing` flag, the progress values
  written (20, 40, 50, one value per page, 90, 100), the page loop, the
  `try`/`catch`/`finally` structure and where the work can throw;
- the download-name expression on line 58;
- the acceptance rule of `handleDrop` and `handleFileSelect`: only the first
  file counts, and it is processed only when its type is exactly
  `application/pdf`;
- the `isDragging` flag of the drop zone.

Files and modules:

- `options.dfy` (`Options`): the `Option` datatype.
- `file_names.dfy` (`FileNames`): JavaScript's `replace` with a string pattern,
  the download name as line 58 computes it, and the corrected name (see
  "## Findings").
- `trace.dfy` (`Trace`): an event-based specification, plus the lemmas about it.
  Every state-setter call, page stamp, download and alert is one `Event`.
  `ProcessTrace`, `DropTrace` and `FileSelectTrace` give the event sequence a
  handler produces, exact except for the download name (see "## Findings" and
  "## Left out"). `Replay` gives the React state after a sequence
  of events.
- `page.dfy` (`Page`): the component as a class `PdfProcessor`. It has the
  fields `isDragging`, `processing` and `progress`, and a `history` of events.
  The handlers are methods that update the fields step by step; the page loop
  is a `while` loop. Each method's postcondition ties `history` to the
  specification in `Trace`. The invariant `Valid()` says the fields are exactly
  what replaying `history` gives.

`pdf-lib` is abstracted. A file's `PdfContent` gives its page count and the
first step, if any, that throws: reading the bytes (line 26), loading (29),
embedding the font (30), measuring or drawing on page `k` (36-46), or saving
(51). `Draw(k)` stands for `page.drawText` on page `k`. `Download(name)` stands
for the whole Blob/anchor download (lines 54-62).

`app/page.tsx` handles one file at a time, stamps the text at 8 pt, writes
progress 20 before reading the file's bytes (line 24) and 40 after (line 27).

## Model

| member | source | states |
|---|---|---|
| FileNames.IndexOfFrom | app/page.tsx:58 | The index found is an occurrence of the pattern, and no earlier index at or after the start is one; `None` means the pattern does not occur from there on. |
| FileNames.DownloadNameAsWritten | app/page.tsx:58 | Defines the download name exactly as line 58 computes it: `RemoveFirst(name, ".pdf")` followed by `-processed.pdf`. The lemma rows below state what it gives. |
| FileNames.RemoveFirst | app/page.tsx:58 | `s.replace(p, '')` gives `s` unchanged when `p` does not occur in it. Otherwise it gives `s` with exactly the first occurrence of `p` cut out. |
| FileNames.AsWrittenKeepsNameWithoutPattern | app/page.tsx:58 | A name that does not contain `.pdf` is kept whole, then `-processed.pdf` is appended. |
| FileNames.AsWrittenRemovesFirstOccurrence | app/page.tsx:58 | When the first `.pdf` is at index `k`, the name loses exactly those four characters, then `-processed.pdf` is appended. |
| FileNames.AsWrittenLabelExample | app/page.tsx:58 | `label.pdf` is downloaded as `label-processed.pdf`. |
| FileNames.AsWrittenUpperCaseExample | app/page.tsx:58 | The match is case-sensitive: `A.PDF` is downloaded as `A.PDF-processed.pdf`. |
| FileNames.AsWrittenDoubleExtensionExample | app/page.tsx:58 | Only the first occurrence is removed: `a.pdf.pdf` is downloaded as `a.pdf-processed.pdf`. |
| FileNames.AsWrittenMangledExample | app/page.tsx:58 | The code as written downloads `my.pdfs.pdf` as `mys.pdf-processed.pdf`, not as `my.pdfs-processed.pdf`. |
| FileNames.StripPdfExtension | app/page.tsx:58 | A name ending in `.pdf` loses exactly that suffix; any other name is kept whole. |
| FileNames.DownloadName | app/page.tsx:58 | The corrected download name always ends with `-processed.pdf`. |
| FileNames.DownloadNameOfPdf | app/page.tsx:58 | For every base name `b`, the file `b.pdf` is downloaded as `b-processed.pdf`. |
| FileNames.DownloadNameKeepsOtherNames | app/page.tsx:58 | A name without the `.pdf` extension is kept whole, then `-processed.pdf` is appended. |
| FileNames.AsWrittenAgreesWhenFirstIsExtension | app/page.tsx:58 | The code as written gives the corrected name when `.pdf` does not occur in the name, or occurs first as its extension. |
| Trace.Initial | app/page.tsx:17-19 | Defines the initial state of the `useState` calls: not dragging, not processing, progress 0. |
| Trace.Apply | app/page.tsx:17-19 | Defines the effect of one event on the state: `setIsDragging`, `setProcessing` and `setProgress` overwrite their field; a draw, a download or an alert leaves the state alone. |
| Trace.ReplayKeepsDragging | app/page.tsx:78-91 | Events other than `SetDragging` never change `isDragging`. |
| Trace.PageProgress | app/page.tsx:48 | The progress written after a page lies in [50, 80], and is 80 after the last page. |
| Trace.PageProgressMonotone | app/page.tsx:48 | A later page never writes a lower progress value. |
| Trace.PageEvents | app/page.tsx:35-49 | Defines the events of the first `k` iterations of the `forEach`: for each page in order, its draw followed by its progress write. |
| Trace.PageEventsDraws | app/page.tsx:35-49 | The first `k` loop iterations draw pages 0 to k-1, each exactly once, in page order. |
| Trace.PageEventsProgress | app/page.tsx:35-49 | The progress values written by the first `k` iterations are, in order, the per-page values of line 48. |
| Trace.PageEventsQuiet | app/page.tsx:35-49 | The page loop never sets `processing`, never downloads, never alerts and never touches `isDragging`. |
| Trace.PagesDrawn | app/page.tsx:29-49 | The number of pages stamped never exceeds the page count. |
| Trace.TryBlock | app/page.tsx:22-68 | Defines the events of the `try` block: `processing` on and 20, then 40 unless reading throws, then 50 unless loading or embedding throws, then the pages up to the one whose drawing throws, then 90, the download and 100 unless saving throws. |
| Trace.SaveSteps | app/page.tsx:51-64 | Defines the steps after a successful save: progress 90, the download under the given name, then progress 100. |
| Trace.CatchBlock | app/page.tsx:69-71 | Defines the `catch` block: one processing-error alert when some step threw, and nothing when none did. |
| Trace.Prelude | app/page.tsx:23-31 | Defines the opening steps up to the first throw: `processing` on and 20; then 40 unless reading throws; then 50 unless loading or embedding throws. |
| Trace.FinallyBlock | app/page.tsx:72-75 | Defines the `finally` block: `processing` false, then progress 0. |
| Trace.Epilogue | app/page.tsx:51-75 | Defines what follows the pages drawn: the save steps when nothing throws, otherwise the `catch` alert; then the `finally` block. |
| Trace.ProcessTrace | app/page.tsx:21-76 | Defines a whole run: the `try` block, the `catch` block's alert when a step threw, then the `finally` block's reset. |
| Trace.ProcessTraceBrackets | app/page.tsx:23-75 | A run's first event sets `processing` to true. Its last two events set `processing` to false and `progress` to 0, on every path. |
| Trace.TryBlockSplit | app/page.tsx:22-68 | The `try` block has three parts: the opening steps it reaches, the loop over the pages actually drawn, and the save/download steps when nothing throws. |
| Trace.ProcessTraceDraws | app/page.tsx:29-51 | Every page reached is drawn exactly once, in page order. On success the number of draws is the page count. If reading, loading or embedding throws, nothing is drawn. |
| Trace.ProcessTraceDownloads | app/page.tsx:51-71 | There is exactly one download, under `DownloadName(name)`, when no step throws, and none otherwise. A failed run raises exactly one alert; a successful one raises none. |
| Trace.ProcessTraceProcessingWrites | app/page.tsx:23-75 | `processing` is written exactly twice: true first, then false. |
| Trace.ProcessTraceProgress | app/page.tsx:24-74 | Whichever step throws, the progress values written lie in [0, 100]. They do not decrease until the final reset to 0. |
| Trace.ProcessTraceProgressOnSuccess | app/page.tsx:24-64 | On success the values written are exactly 20, 40, 50, one value per page, 90, 100 and 0. After the last page the value is 80. |
| Trace.ProcessTraceEndsIdle | app/page.tsx:69-75 | Whatever the outcome, a run ends with `processing` false and `progress` 0, and `isDragging` unchanged. |
| Trace.OnlyFirstFileMatters | app/page.tsx:92-102 | Two non-empty file lists with the same first file give the same drop and the same selection effects: only the first file is considered. |
| Trace.FirstFile | app/page.tsx:92 | Defines the picked file of lines 92 and 101, `files[0]`: the first file of the list, or none when the list is empty. |
| Trace.IsPdf | app/page.tsx:93 | Defines the acceptance condition of lines 93 and 102, `file && file.type === 'application/pdf'`: a file is present and its type is exactly `application/pdf`. |
| Trace.SelectionTrace | app/page.tsx:93-97 | Defines what a handler does with the file it picked: run `processPDF` on a PDF, otherwise raise the invalid-file alert. |
| Trace.DropTrace | app/page.tsx:88-98 | Defines `handleDrop`: clear `isDragging`, then handle the first dropped file. |
| Trace.FileSelectTrace | app/page.tsx:100-107 | Defines `handleFileSelect`: handle the first file of the list, or no file when the list is `null`. |
| Trace.SelectionProcessesIff | app/page.tsx:93-106 | Processing starts iff a file is present and its type is exactly `application/pdf`. Otherwise the only event is the alert, and the state is unchanged. |
| Trace.DropProcessesIff | app/page.tsx:88-98 | A drop processes iff the first dropped file exists and has type `application/pdf`. A drop always leaves `isDragging` false. |
| Trace.FileSelectProcessesIff | app/page.tsx:100-107 | A selection processes iff the file list is present, is non-empty, and its first file has type `application/pdf`. A selection leaves `isDragging` unchanged. |
| Page.PdfProcessor.constructor | app/page.tsx:17-19 | The component starts not dragging, not processing, at progress 0, with empty history. |
| Page.PdfProcessor.Emit | app/page.tsx:17-19 | Performs one effect: the fields become `Apply` of their old values, the event is appended to `history`, and `Valid()` is kept. |
| Page.PdfProcessor.OpenDocument | app/page.tsx:23-31 | Sets `processing`, writes 20, 40 and 50 around reading, loading and embedding, and stops at the first of these that throws. |
| Page.PdfProcessor.StampPages | app/page.tsx:35-49 | The `while` loop draws each page and then writes its progress. It reports a throw exactly when drawing fails on an existing page. |
| Page.PdfProcessor.StampPage | app/page.tsx:36-48 | One iteration draws on its page, then writes that page's progress value, and leaves `isDragging` and `processing` alone. |
| Page.PdfProcessor.SaveAndDownload | app/page.tsx:51-64 | Unless saving throws, writes 90, downloads under the corrected name, then writes 100. |
| Page.PdfProcessor.RunTryBlock | app/page.tsx:22-68 | The `try` block appends exactly `TryBlock(file)` to the history. It reports a throw exactly when some reached step throws. |
| Page.PdfProcessor.ProcessPdf | app/page.tsx:21-76 | Appends exactly `ProcessTrace(file)`, and ends with `processing` false, `progress` 0 and `isDragging` unchanged. |
| Page.PdfProcessor.HandleDragOver | app/page.tsx:78-81 | Sets `isDragging` true and changes nothing else. |
| Page.PdfProcessor.HandleDragLeave | app/page.tsx:83-86 | Sets `isDragging` false and changes nothing else. |
| Page.PdfProcessor.ProcessIfPdf | app/page.tsx:93-106 | A PDF is processed and the state ends idle. Anything else only raises the alert, and `processing` and `progress` keep their values. |
| Page.PdfProcessor.HandleDrop | app/page.tsx:88-98 | Appends exactly `DropTrace(files)` and ends with `isDragging` false. |
| Page.PdfProcessor.HandleFileSelect | app/page.tsx:100-107 | Appends exactly `FileSelectTrace(files)` and leaves `isDragging` unchanged. |

## Left out

- `pdf-lib` (`PDFDocument.load`, `embedFont`, `getPages`, `getSize`, `widthOfTextAtSize`, `drawText`, `save`) is a foreign library. It is reduced to a page count, the step that throws, and a `Draw(page)` event.
- The stamped text, its 8 pt size and its position (`x = (width - textWidth) / 2`, `y = fontSize * 1`, lines 36-45) are floating-point arithmetic on a font metric computed by the library, so they are not modelled. `Draw(page)` records only which page is stamped.
- The bytes of the input and output files are not modelled.
- The Blob, object URL and anchor click (lines 54-62) are browser I/O and are reduced to one `Download(name)` event. A failure inside them is not modelled.
- `console.error` (line 70) is not modelled. `alert` (lines 71, 96, 105) is kept only as an `Alert(message)` event.
- The `setTimeout` reset (lines 65-68) is asynchronous timer behaviour. The `finally` block has already reset both fields to the same values. A pending timer could also reset a second run started within one second; that would need interleaving, which this model does not have.
- Handlers run to completion. The model does not interleave two `processPDF` calls at their `await` points (for example a second drop while the first file is still being processed; the button is disabled while processing, but the drop zone is not).
- `e.preventDefault()`, JSX rendering, the Card/Button/Progress components and the file-picker click (lines 109-160) are UI.
- React's batching of state updates and re-rendering are not modelled. Each setter call is an immediate write.
- Trace.PageProgress: models `Math.floor((index + 1) / pages.length * 30)` as the exact integer quotient `(index + 1) * 30 / n`. Any floating-point rounding of the source's division and product is not modelled.
- Page.PdfProcessor.SaveAndDownload: downloads under the corrected `DownloadName`, not under the name line 58 actually produces (see "## Findings"). `FileNames.DownloadNameAsWritten` models line 58 as written.
- Trace.TryBlock, Trace.Epilogue, Trace.ProcessTrace, Trace.SelectionTrace, Trace.DropTrace, Trace.FileSelectTrace, Trace.ProcessTraceDownloads, Page.PdfProcessor.RunTryBlock, Page.PdfProcessor.ProcessPdf, Page.PdfProcessor.ProcessIfPdf, Page.PdfProcessor.HandleDrop and Page.PdfProcessor.HandleFileSelect: use the same corrected `DownloadName`, so for `my.pdfs.pdf` they download `my.pdfs-processed.pdf` where line 58 gives `mys.pdf-processed.pdf`. Everything else in their event sequences is as the code is written.

## Findings

| source | as written | input that shows it | evidently intended | confidence | as-written member | corrected member |
|---|---|---|---|---|---|---|
| app/page.tsx:58 | `name.replace('.pdf', '')` removes the first `.pdf` anywhere in the name, not the extension. | `my.pdfs.pdf` is downloaded as `mys.pdf-processed.pdf`. | Drop a trailing `.pdf` extension: `my.pdfs-processed.pdf`. | medium; not executed | FileNames.AsWrittenMangledExample | FileNames.DownloadNameOfPdf |
