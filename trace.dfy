/**
  What the page of app/page.tsx does, as the sequence of observable effects it
  produces.  Every call of a React state setter (`setIsDragging`,
  `setProcessing`, `setProgress`), every text stamp drawn on a page, every
  download and every alert is one `Event`; a handler's behaviour is the list of
  events it emits, in order.  The `pdf-lib` calls are abstracted: a file's
  `PdfContent` says how many pages the library finds in it and at which step, if
  any, the library (or reading the file) throws.
*/
module Trace {
  import opened Options
  import opened FileNames

  const PdfMimeType := "application/pdf"
  /** The alert of the `catch` block (line 71). */
  const ProcessingErrorMessage := "处理PDF时发生错误, 请重试"
  /** The alert for a missing or non-PDF file (lines 96 and 105). */
  const InvalidFileMessage := "Please upload a valid PDF file."

  /** The awaited steps of `processPDF` that can throw. */
  datatype Stage =
    | ReadBytes            // `file.arrayBuffer()`, line 26
    | Load                 // `PDFDocument.load`, line 29
    | EmbedFont            // `embedFont`, line 30
    | DrawPage(index: nat) // measuring and drawing on page `index`, lines 36-46
    | Save                 // `pdfDoc.save()`, line 51

  /** What the library makes of a file's bytes: its page count and the first step that throws, if any. */
  datatype PdfContent = PdfContent(pageCount: nat, failure: Option<Stage>)

  /** A `File` as the handlers see it: its name, its declared MIME type and its content. */
  datatype InputFile = InputFile(name: string, mimeType: string, content: PdfContent)

  datatype Event =
    | SetDragging(on: bool)
    | SetProcessing(on: bool)
    | SetProgress(value: int)
    | Draw(page: nat)
    | Download(fileName: string)
    | Alert(message: string)

  /** The component's three pieces of React state. */
  datatype UiState = UiState(isDragging: bool, processing: bool, progress: int)

  /** The `useState` initial values, lines 17-19. */
  const Initial := UiState(false, false, 0)

  /** The state after one event: only the three setters change state. */
  function Apply(s: UiState, e: Event): UiState {
    match e
    case SetDragging(on) => s.(isDragging := on)
    case SetProcessing(on) => s.(processing := on)
    case SetProgress(v) => s.(progress := v)
    case _ => s
  }

  /** The state after a sequence of events. */
  function Replay(s: UiState, es: seq<Event>): UiState
    decreases |es|
  {
    if es == [] then s else Replay(Apply(s, es[0]), es[1..])
  }

  lemma {:induction false} ReplayAppend(s: UiState, a: seq<Event>, b: seq<Event>)
    ensures Replay(s, a + b) == Replay(Replay(s, a), b)
    decreases |a|
  {
    if a == [] {
      assert a + b == b;
    } else {
      assert (a + b)[1..] == a[1..] + b;
      ReplayAppend(Apply(s, a[0]), a[1..], b);
    }
  }

  lemma AppendAssoc<T>(a: seq<T>, b: seq<T>, c: seq<T>)
    ensures a + b + c == a + (b + c)
  {
  }

  predicate NoDragging(es: seq<Event>) {
    forall e | e in es :: !e.SetDragging?
  }

  /** Only a `SetDragging` event changes `isDragging`. */
  lemma {:induction false} ReplayKeepsDragging(s: UiState, es: seq<Event>)
    requires NoDragging(es)
    ensures Replay(s, es).isDragging == s.isDragging
    decreases |es|
  {
    if es != [] {
      assert es[0] in es;
      assert forall e | e in es[1..] :: e in es;
      ReplayKeepsDragging(Apply(s, es[0]), es[1..]);
    }
  }

  /** The events `pick` selects from `es`, in order. */
  function Collect<T>(es: seq<Event>, pick: Event -> Option<T>): seq<T>
    decreases |es|
  {
    if es == [] then []
    else (match pick(es[0]) case Some(x) => [x] case None => []) + Collect(es[1..], pick)
  }

  lemma {:induction false} CollectAppend<T>(a: seq<Event>, b: seq<Event>, pick: Event -> Option<T>)
    ensures Collect(a + b, pick) == Collect(a, pick) + Collect(b, pick)
    decreases |a|
  {
    if a == [] {
      assert a + b == b;
    } else {
      assert (a + b)[1..] == a[1..] + b;
      CollectAppend(a[1..], b, pick);
    }
  }

  function ProgressOf(e: Event): Option<int> {
    if e.SetProgress? then Some(e.value) else None
  }

  function ProcessingOf(e: Event): Option<bool> {
    if e.SetProcessing? then Some(e.on) else None
  }

  function DrawOf(e: Event): Option<nat> {
    if e.Draw? then Some(e.page) else None
  }

  function DownloadOf(e: Event): Option<string> {
    if e.Download? then Some(e.fileName) else None
  }

  function AlertOf(e: Event): Option<string> {
    if e.Alert? then Some(e.message) else None
  }

  /**
    The progress written after stamping page `i` (0-based) of `n`, line 48.  The
    source computes `Math.floor((i + 1) / n * 30)` in floating point; this model
    takes it to be the integer quotient `(i + 1) * 30 / n`.
  */
  function PageProgress(i: nat, n: nat): (p: int)
    requires i < n
    ensures 50 <= p <= 80
    ensures i + 1 == n ==> p == 80
  {
    PageQuotientBound(i, n);
    50 + ((i + 1) * 30) / n
  }

  lemma PageQuotientBound(i: nat, n: nat)
    requires i < n
    ensures 0 <= ((i + 1) * 30) / n <= 30
    ensures i + 1 == n ==> ((i + 1) * 30) / n == 30
  {
    var a := (i + 1) * 30;
    var q := a / n;
    DivBounds(a, n);
    MulMonotone(30, i + 1, n);
    assert n * q <= a <= n * 30;
    MulMonotone(n, 31, q);
    MulMonotone(n, q + 1, 0);
    if i + 1 == n {
      assert n * 30 < n * (q + 1);
      MulLessCancel(n, 30, q + 1);
    }
  }

  /** Euclidean division of `a` by a positive `n`. */
  lemma DivBounds(a: int, n: int)
    requires 0 < n
    ensures n * (a / n) <= a < n * (a / n) + n
  {
  }

  lemma MulMonotone(n: nat, a: int, b: int)
    ensures a <= b ==> n * a <= n * b
  {
    assert n * b - n * a == n * (b - a);
  }

  lemma DivMonotone(a: nat, b: nat, n: nat)
    requires a <= b && 0 < n
    ensures a / n <= b / n
  {
    var qa, qb := a / n, b / n;
    DivBounds(a, n);
    DivBounds(b, n);
    assert n * qa < n * (qb + 1);
    MulLessCancel(n, qa, qb + 1);
  }

  lemma MulLessCancel(n: nat, x: int, y: int)
    requires 0 < n && n * x < n * y
    ensures x < y
  {
    MulMonotone(n, y, x);
  }

  /** Later pages never write a lower progress value. */
  lemma PageProgressMonotone(i: nat, j: nat, n: nat)
    requires i <= j < n
    ensures PageProgress(i, n) <= PageProgress(j, n)
  {
    DivMonotone((i + 1) * 30, (j + 1) * 30, n);
  }

  /** The events of the first `k` iterations of the `forEach` over `n` pages. */
  function PageEvents(n: nat, k: nat): seq<Event>
    requires k <= n
    decreases k
  {
    if k == 0 then []
    else PageEvents(n, k - 1) + [Draw(k - 1), SetProgress(PageProgress(k - 1, n))]
  }

  /** The progress values written by the first `k` of `n` pages. */
  function PageProgresses(n: nat, k: nat): (r: seq<int>)
    requires k <= n
    ensures |r| == k
    ensures forall i :: 0 <= i < k ==> r[i] == PageProgress(i, n)
    decreases k
  {
    if k == 0 then [] else PageProgresses(n, k - 1) + [PageProgress(k - 1, n)]
  }

  /** The pages `0, 1, ..., k - 1`, in order. */
  function Range(k: nat): (r: seq<nat>)
    ensures |r| == k
    ensures forall i :: 0 <= i < k ==> r[i] == i
    decreases k
  {
    if k == 0 then [] else Range(k - 1) + [k - 1]
  }

  lemma {:induction false} PageEventsKinds(n: nat, k: nat)
    requires k <= n
    ensures forall e | e in PageEvents(n, k) :: e.Draw? || e.SetProgress?
    decreases k
  {
    if k > 0 {
      PageEventsKinds(n, k - 1);
    }
  }

  /** Page loop: page `i` is drawn once, in order, and then progress for it is written. */
  lemma {:induction false} PageEventsDraws(n: nat, k: nat)
    requires k <= n
    ensures Collect(PageEvents(n, k), DrawOf) == Range(k)
    decreases k
  {
    if k > 0 {
      var step := [Draw(k - 1), SetProgress(PageProgress(k - 1, n))];
      PageEventsDraws(n, k - 1);
      CollectAppend(PageEvents(n, k - 1), step, DrawOf);
      CollectPair(Draw(k - 1), SetProgress(PageProgress(k - 1, n)), DrawOf);
    }
  }

  /** After page `i`, the progress written is `PageProgress(i, n)`. */
  lemma {:induction false} PageEventsProgress(n: nat, k: nat)
    requires k <= n
    ensures Collect(PageEvents(n, k), ProgressOf) == PageProgresses(n, k)
    decreases k
  {
    if k > 0 {
      var step := [Draw(k - 1), SetProgress(PageProgress(k - 1, n))];
      PageEventsProgress(n, k - 1);
      CollectAppend(PageEvents(n, k - 1), step, ProgressOf);
      CollectPair(Draw(k - 1), SetProgress(PageProgress(k - 1, n)), ProgressOf);
    }
  }

  lemma CollectPair<T>(d: Event, e: Event, pick: Event -> Option<T>)
    ensures Collect([d, e], pick) == Collect([d], pick) + Collect([e], pick)
  {
  }

  /** The page loop neither sets `processing`, nor downloads, nor alerts, nor touches `isDragging`. */
  lemma PageEventsQuiet(n: nat, k: nat)
    requires k <= n
    ensures Collect(PageEvents(n, k), ProcessingOf) == []
    ensures Collect(PageEvents(n, k), DownloadOf) == []
    ensures Collect(PageEvents(n, k), AlertOf) == []
    ensures NoDragging(PageEvents(n, k))
  {
    PageEventsKinds(n, k);
    CollectNone(PageEvents(n, k), ProcessingOf);
    CollectNone(PageEvents(n, k), DownloadOf);
    CollectNone(PageEvents(n, k), AlertOf);
  }

  lemma {:induction false} CollectNone<T>(es: seq<Event>, pick: Event -> Option<T>)
    requires forall e | e in es :: pick(e).None?
    ensures Collect(es, pick) == []
    decreases |es|
  {
    if es != [] {
      assert es[0] in es;
      assert forall e | e in es[1..] :: e in es;
      CollectNone(es[1..], pick);
    }
  }

  predicate Throws(c: PdfContent, s: Stage) {
    c.failure == Some(s)
  }

  /** Drawing throws on a page that exists, so the `forEach` stops there. */
  predicate DrawThrows(c: PdfContent) {
    c.failure.Some? && c.failure.value.DrawPage? && c.failure.value.index < c.pageCount
  }

  /** No step that is reached throws. */
  predicate Succeeds(c: PdfContent) {
    !Throws(c, ReadBytes) && !Throws(c, Load) && !Throws(c, EmbedFont) && !DrawThrows(c) && !Throws(c, Save)
  }

  /** How many pages get stamped: none if reading, loading or embedding throws, the pages before a failing one, else all. */
  function PagesDrawn(c: PdfContent): (k: nat)
    ensures k <= c.pageCount
  {
    if Throws(c, ReadBytes) || Throws(c, Load) || Throws(c, EmbedFont) then 0
    else if DrawThrows(c) then c.failure.value.index
    else c.pageCount
  }

  /** The steps after the page loop when nothing throws: save, download, done. */
  function SaveSteps(name: string): seq<Event> {
    [SetProgress(90), Download(name), SetProgress(100)]
  }

  /** The events of the `try` block of `processPDF` (lines 22-68), up to the step that throws, if any. */
  function TryBlock(f: InputFile): seq<Event> {
    var c := f.content;
    var n := c.pageCount;
    [SetProcessing(true), SetProgress(20)] +
    if Throws(c, ReadBytes) then []
    else
      [SetProgress(40)] +
      if Throws(c, Load) || Throws(c, EmbedFont) then []
      else
        [SetProgress(50)] +
        if DrawThrows(c) then PageEvents(n, c.failure.value.index)
        else
          PageEvents(n, n) +
          if Throws(c, Save) then []
          else SaveSteps(DownloadName(f.name))
  }

  /** The `catch` block: one alert when the `try` block threw. */
  function CatchBlock(f: InputFile): seq<Event> {
    if Succeeds(f.content) then [] else [Alert(ProcessingErrorMessage)]
  }

  /** The `finally` block, lines 72-75, run on every exit path. */
  const FinallyBlock := [SetProcessing(false), SetProgress(0)]

  /** All events of one `processPDF(file)` call. */
  function ProcessTrace(f: InputFile): seq<Event> {
    TryBlock(f) + CatchBlock(f) + FinallyBlock
  }

  /** `processing` is set true before anything else happens, and the `finally` reset is the last thing. */
  lemma ProcessTraceBrackets(f: InputFile)
    ensures var r := ProcessTrace(f);
      && |r| >= 4
      && r[0] == SetProcessing(true)
      && r[|r| - 2..] == [SetProcessing(false), SetProgress(0)]
  {
  }

  /** The steps before the page loop that run and are not undone by a throw. */
  function Prelude(c: PdfContent): seq<Event> {
    if Throws(c, ReadBytes) then [SetProcessing(true), SetProgress(20)]
    else if Throws(c, Load) || Throws(c, EmbedFont) then [SetProcessing(true), SetProgress(20), SetProgress(40)]
    else [SetProcessing(true), SetProgress(20), SetProgress(40), SetProgress(50)]
  }

  /** What follows the page loop: the save and download on success, the alert otherwise, then the cleanup. */
  function Epilogue(f: InputFile): seq<Event> {
    (if Succeeds(f.content) then SaveSteps(DownloadName(f.name)) else [Alert(ProcessingErrorMessage)])
    + FinallyBlock
  }

  /** The `try` block is: prelude, the loop over the pages that get drawn, and the save steps if nothing throws. */
  lemma TryBlockSplit(f: InputFile)
    ensures TryBlock(f) == Prelude(f.content) + PageEvents(f.content.pageCount, PagesDrawn(f.content))
                         + (if Succeeds(f.content) then SaveSteps(DownloadName(f.name)) else [])
  {
  }

  lemma TryBlockWhenOpenThrows(f: InputFile)
    requires Throws(f.content, ReadBytes) || Throws(f.content, Load) || Throws(f.content, EmbedFont)
    ensures TryBlock(f) == Prelude(f.content) && !Succeeds(f.content)
  {
  }

  lemma TryBlockWhenDrawThrows(f: InputFile)
    requires !Throws(f.content, ReadBytes) && !Throws(f.content, Load) && !Throws(f.content, EmbedFont)
    requires DrawThrows(f.content)
    ensures TryBlock(f) == Prelude(f.content) + PageEvents(f.content.pageCount, f.content.failure.value.index)
    ensures !Succeeds(f.content)
  {
  }

  lemma TryBlockAfterPages(f: InputFile)
    requires !Throws(f.content, ReadBytes) && !Throws(f.content, Load) && !Throws(f.content, EmbedFont)
    requires !DrawThrows(f.content)
    ensures TryBlock(f) == Prelude(f.content) + PageEvents(f.content.pageCount, f.content.pageCount)
                         + (if Throws(f.content, Save) then [] else SaveSteps(DownloadName(f.name)))
    ensures Succeeds(f.content) <==> !Throws(f.content, Save)
  {
  }

  /** Every run is: prelude, the loop over the pages that get drawn, epilogue. */
  lemma ProcessTraceSplit(f: InputFile)
    ensures ProcessTrace(f) == Prelude(f.content) + PageEvents(f.content.pageCount, PagesDrawn(f.content)) + Epilogue(f)
  {
  }

  /** `Collect` over the three parts of a run. */
  lemma CollectRun<T>(f: InputFile, pick: Event -> Option<T>)
    ensures Collect(ProcessTrace(f), pick)
         == Collect(Prelude(f.content), pick)
          + Collect(PageEvents(f.content.pageCount, PagesDrawn(f.content)), pick)
          + Collect(Epilogue(f), pick)
  {
    var a, b, e := Prelude(f.content), PageEvents(f.content.pageCount, PagesDrawn(f.content)), Epilogue(f);
    ProcessTraceSplit(f);
    CollectAppend(a + b, e, pick);
    CollectAppend(a, b, pick);
  }

  lemma CollectCons<T>(e: Event, es: seq<Event>, pick: Event -> Option<T>)
    ensures Collect([e] + es, pick) == Collect([e], pick) + Collect(es, pick)
  {
    assert ([e] + es)[1..] == es;
    assert [e][1..] == [];
  }

  lemma CollectOne<T>(e: Event, pick: Event -> Option<T>)
    ensures Collect([e], pick) == if pick(e).Some? then [pick(e).value] else []
  {
    assert [e][1..] == [];
  }

  lemma PreludeCollect(c: PdfContent)
    ensures Collect(Prelude(c), DrawOf) == []
    ensures Collect(Prelude(c), DownloadOf) == []
    ensures Collect(Prelude(c), AlertOf) == []
    ensures Collect(Prelude(c), ProcessingOf) == [true]
    ensures Collect(Prelude(c), ProgressOf)
         == if Throws(c, ReadBytes) then [20]
            else if Throws(c, Load) || Throws(c, EmbedFont) then [20, 40]
            else [20, 40, 50]
    ensures NoDragging(Prelude(c))
  {
    PreludeQuiet(c);
    PreludeProcessing(c);
    PreludeProgress(c);
  }

  lemma PreludeQuiet(c: PdfContent)
    ensures Collect(Prelude(c), DrawOf) == []
    ensures Collect(Prelude(c), DownloadOf) == []
    ensures Collect(Prelude(c), AlertOf) == []
    ensures NoDragging(Prelude(c))
  {
    CollectNone(Prelude(c), DrawOf);
    CollectNone(Prelude(c), DownloadOf);
    CollectNone(Prelude(c), AlertOf);
  }

  lemma PreludeProcessing(c: PdfContent)
    ensures Collect(Prelude(c), ProcessingOf) == [true]
  {
    var p := Prelude(c);
    assert p == [SetProcessing(true)] + p[1..];
    CollectCons(SetProcessing(true), p[1..], ProcessingOf);
    CollectOne(SetProcessing(true), ProcessingOf);
    CollectNone(p[1..], ProcessingOf);
  }

  lemma PreludeProgress(c: PdfContent)
    ensures Collect(Prelude(c), ProgressOf)
         == if Throws(c, ReadBytes) then [20]
            else if Throws(c, Load) || Throws(c, EmbedFont) then [20, 40]
            else [20, 40, 50]
  {
    var p, q := SetProcessing(true), SetProgress(20);
    CollectOne(p, ProgressOf);
    CollectOne(q, ProgressOf);
    if Throws(c, ReadBytes) {
      assert Prelude(c) == [p] + [q];
      CollectCons(p, [q], ProgressOf);
    } else if Throws(c, Load) || Throws(c, EmbedFont) {
      var r := SetProgress(40);
      assert Prelude(c) == [p] + ([q] + [r]);
      CollectCons(p, [q] + [r], ProgressOf);
      CollectCons(q, [r], ProgressOf);
      CollectOne(r, ProgressOf);
    } else {
      var r, t := SetProgress(40), SetProgress(50);
      assert Prelude(c) == [p] + ([q] + ([r] + [t]));
      CollectCons(p, [q] + ([r] + [t]), ProgressOf);
      CollectCons(q, [r] + [t], ProgressOf);
      CollectCons(r, [t], ProgressOf);
      CollectOne(r, ProgressOf);
      CollectOne(t, ProgressOf);
    }
  }


  lemma EpilogueCollect(f: InputFile)
    ensures Collect(Epilogue(f), DrawOf) == []
    ensures Collect(Epilogue(f), DownloadOf) == if Succeeds(f.content) then [DownloadName(f.name)] else []
    ensures Collect(Epilogue(f), AlertOf) == if Succeeds(f.content) then [] else [ProcessingErrorMessage]
    ensures Collect(Epilogue(f), ProcessingOf) == [false]
    ensures Collect(Epilogue(f), ProgressOf) == if Succeeds(f.content) then [90, 100, 0] else [0]
    ensures NoDragging(Epilogue(f))
  {
    if Succeeds(f.content) {
      assert Epilogue(f) == SuccessTail(DownloadName(f.name));
      SuccessTailCollect(DownloadName(f.name));
    } else {
      assert Epilogue(f) == FailureTail();
      FailureTailCollect();
    }
  }

  /** The events after a successful page loop: save, download, 100, then the `finally` block. */
  function SuccessTail(name: string): seq<Event> {
    SaveSteps(name) + FinallyBlock
  }

  lemma SuccessTailCollect(name: string)
    ensures Collect(SuccessTail(name), DrawOf) == []
    ensures Collect(SuccessTail(name), DownloadOf) == [name]
    ensures Collect(SuccessTail(name), AlertOf) == []
    ensures Collect(SuccessTail(name), ProcessingOf) == [false]
    ensures Collect(SuccessTail(name), ProgressOf) == [90, 100, 0]
    ensures NoDragging(SuccessTail(name))
  {
    SuccessTailPart(name, DrawOf);
    SuccessTailPart(name, DownloadOf);
    SuccessTailPart(name, AlertOf);
    SuccessTailPart(name, ProcessingOf);
    SuccessTailPart(name, ProgressOf);
    FinallyCollect();
    SaveStepsCollect(name);
  }

  lemma SuccessTailPart<T>(name: string, pick: Event -> Option<T>)
    ensures Collect(SuccessTail(name), pick)
         == Collect(SaveSteps(name), pick) + Collect(FinallyBlock, pick)
  {
    CollectAppend(SaveSteps(name), FinallyBlock, pick);
  }

  /** The events after a run that threw: the `catch` block's alert, then the `finally` block. */
  function FailureTail(): seq<Event> {
    [Alert(ProcessingErrorMessage)] + FinallyBlock
  }

  lemma FailureTailCollect()
    ensures Collect(FailureTail(), DrawOf) == []
    ensures Collect(FailureTail(), DownloadOf) == []
    ensures Collect(FailureTail(), AlertOf) == [ProcessingErrorMessage]
    ensures Collect(FailureTail(), ProcessingOf) == [false]
    ensures Collect(FailureTail(), ProgressOf) == [0]
    ensures NoDragging(FailureTail())
  {
    FinallyCollect();
    FailureTailPart(DrawOf);
    FailureTailPart(DownloadOf);
    FailureTailPart(AlertOf);
    FailureTailPart(ProcessingOf);
    FailureTailPart(ProgressOf);
  }

  lemma FailureTailPart<T>(pick: Event -> Option<T>)
    ensures Collect(FailureTail(), pick)
         == (if pick(Alert(ProcessingErrorMessage)).Some? then [pick(Alert(ProcessingErrorMessage)).value] else [])
          + Collect(FinallyBlock, pick)
  {
  }

  lemma FinallyCollect()
    ensures Collect(FinallyBlock, DrawOf) == []
    ensures Collect(FinallyBlock, DownloadOf) == []
    ensures Collect(FinallyBlock, AlertOf) == []
    ensures Collect(FinallyBlock, ProcessingOf) == [false]
    ensures Collect(FinallyBlock, ProgressOf) == [0]
  {
  }

  lemma SaveStepsCollect(name: string)
    ensures Collect(SaveSteps(name), DrawOf) == []
    ensures Collect(SaveSteps(name), DownloadOf) == [name]
    ensures Collect(SaveSteps(name), AlertOf) == []
    ensures Collect(SaveSteps(name), ProcessingOf) == []
    ensures Collect(SaveSteps(name), ProgressOf) == [90, 100]
  {
    SaveStepsPart(name, DrawOf);
    SaveStepsPart(name, DownloadOf);
    SaveStepsPart(name, AlertOf);
    SaveStepsPart(name, ProcessingOf);
    SaveStepsPart(name, ProgressOf);
  }

  lemma SaveStepsPart<T>(name: string, pick: Event -> Option<T>)
    ensures Collect(SaveSteps(name), pick)
         == Collect([SetProgress(90)], pick) + Collect([Download(name)], pick) + Collect([SetProgress(100)], pick)
  {
  }


  /** Every page that is reached is drawn exactly once, in page order; a throw before the loop draws nothing. */
  lemma ProcessTraceDraws(f: InputFile)
    ensures Collect(ProcessTrace(f), DrawOf) == Range(PagesDrawn(f.content))
    ensures Succeeds(f.content) ==> |Collect(ProcessTrace(f), DrawOf)| == f.content.pageCount
    ensures Throws(f.content, ReadBytes) || Throws(f.content, Load) || Throws(f.content, EmbedFont)
            ==> Collect(ProcessTrace(f), DrawOf) == []
  {
    CollectRun(f, DrawOf);
    PreludeCollect(f.content);
    EpilogueCollect(f);
    PageEventsDraws(f.content.pageCount, PagesDrawn(f.content));
  }

  /** A download, named by `DownloadName`, happens exactly when no step throws; otherwise exactly one alert. */
  lemma ProcessTraceDownloads(f: InputFile)
    ensures Collect(ProcessTrace(f), DownloadOf) == if Succeeds(f.content) then [DownloadName(f.name)] else []
    ensures Collect(ProcessTrace(f), AlertOf) == if Succeeds(f.content) then [] else [ProcessingErrorMessage]
  {
    var n, k := f.content.pageCount, PagesDrawn(f.content);
    CollectRun(f, DownloadOf);
    CollectRun(f, AlertOf);
    PreludeCollect(f.content);
    EpilogueCollect(f);
    PageEventsQuiet(n, k);
  }

  /** `processing` is written twice: set true as the first step, set false by the `finally` block. */
  lemma ProcessTraceProcessingWrites(f: InputFile)
    ensures Collect(ProcessTrace(f), ProcessingOf) == [true, false]
  {
    CollectRun(f, ProcessingOf);
    PreludeCollect(f.content);
    EpilogueCollect(f);
    PageEventsQuiet(f.content.pageCount, PagesDrawn(f.content));
  }

  predicate NonDecreasing(s: seq<int>) {
    forall i, j :: 0 <= i < j < |s| ==> s[i] <= s[j]
  }

  /** Every element of `s` lies in [lo, hi]. */
  predicate Within(s: seq<int>, lo: int, hi: int) {
    forall i :: 0 <= i < |s| ==> lo <= s[i] <= hi
  }

  lemma WithinConcat(a: seq<int>, b: seq<int>, lo: int, hi: int)
    requires Within(a, lo, hi) && Within(b, lo, hi)
    ensures Within(a + b, lo, hi)
  {
    forall i | 0 <= i < |a + b|
      ensures lo <= (a + b)[i] <= hi
    {
      if i < |a| {
        assert (a + b)[i] == a[i];
      } else {
        assert (a + b)[i] == b[i - |a|];
      }
    }
  }

  /** Two non-decreasing sequences separated by `m` join into a non-decreasing one. */
  lemma NonDecreasingJoin(a: seq<int>, b: seq<int>, lo: int, m: int, hi: int)
    requires NonDecreasing(a) && NonDecreasing(b)
    requires Within(a, lo, m) && Within(b, m, hi)
    ensures NonDecreasing(a + b)
  {
    forall i, j | 0 <= i < j < |a + b|
      ensures (a + b)[i] <= (a + b)[j]
    {
      if j < |a| {
        assert (a + b)[i] == a[i] && (a + b)[j] == a[j];
      } else if i < |a| {
        assert (a + b)[i] == a[i] && (a + b)[j] == b[j - |a|];
      } else {
        assert (a + b)[i] == b[i - |a|] && (a + b)[j] == b[j - |a|];
      }
    }
  }

  lemma PageProgressesOrdered(n: nat, k: nat)
    requires k <= n
    ensures NonDecreasing(PageProgresses(n, k))
    ensures Within(PageProgresses(n, k), 50, 80)
  {
    var w := PageProgresses(n, k);
    forall i, j | 0 <= i < j < |w|
      ensures w[i] <= w[j]
    {
      PageProgressMonotone(i, j, n);
    }
  }

  /**
    The progress values one run writes: non-decreasing and within [0, 100] up to
    the final reset to 0, whichever step throws.
  */
  lemma ProcessTraceProgress(f: InputFile)
    ensures var w := Collect(ProcessTrace(f), ProgressOf);
      && |w| >= 2 && w[|w| - 1] == 0
      && NonDecreasing(w[..|w| - 1])
      && Within(w, 0, 100)
  {
    var c, n, k := f.content, f.content.pageCount, PagesDrawn(f.content);
    var pre := Collect(Prelude(c), ProgressOf);
    var post: seq<int> := if Succeeds(c) then [90, 100] else [];
    ProgressWritesSplit(f);
    PreludeProgress(c);
    PageProgressesOrdered(n, k);
    ProgressShape(pre, PageProgresses(n, k), post);
  }

  /** On success the values written are exactly 20, 40, 50, one per page ending at 80, then 90, 100 and 0. */
  lemma ProcessTraceProgressOnSuccess(f: InputFile)
    requires Succeeds(f.content)
    ensures var n := f.content.pageCount;
      Collect(ProcessTrace(f), ProgressOf) == [20, 40, 50] + PageProgresses(n, n) + [90, 100, 0]
    ensures f.content.pageCount > 0 ==> Collect(ProcessTrace(f), ProgressOf)[f.content.pageCount + 2] == 80
  {
    var n := f.content.pageCount;
    var pages := PageProgresses(n, n);
    ProgressWritesSplit(f);
    PreludeProgress(f.content);
    assert [20, 40, 50] + pages + [90, 100] + [0] == [20, 40, 50] + pages + [90, 100, 0];
    if n > 0 {
      assert ([20, 40, 50] + pages + [90, 100, 0])[n + 2] == pages[n - 1];
    }
  }

  lemma ProgressWritesSplit(f: InputFile)
    ensures var c := f.content;
      Collect(ProcessTrace(f), ProgressOf)
      == Collect(Prelude(c), ProgressOf) + PageProgresses(c.pageCount, PagesDrawn(c))
       + ((if Succeeds(c) then [90, 100] else []) + [0])
  {
    var c := f.content;
    CollectRun(f, ProgressOf);
    EpilogueCollect(f);
    PageEventsProgress(c.pageCount, PagesDrawn(c));
    if Succeeds(c) {
      assert [90, 100, 0] == [90, 100] + [0];
    } else {
      assert [0] == [] + [0];
    }
  }

  lemma ProgressShape(pre: seq<int>, pages: seq<int>, post: seq<int>)
    requires pre == [20] || pre == [20, 40] || pre == [20, 40, 50]
    requires NonDecreasing(pages) && Within(pages, 50, 80)
    requires post == [90, 100] || post == []
    ensures var w := pre + pages + (post + [0]);
      && |w| >= 2 && w[|w| - 1] == 0
      && NonDecreasing(w[..|w| - 1])
      && Within(w, 0, 100)
  {
    var front := pre + pages;
    var body := front + post;
    var w := pre + pages + (post + [0]);
    assert w == body + [0];
    assert w[..|w| - 1] == body;
    assert NonDecreasing(pre) && Within(pre, 0, 50);
    NonDecreasingJoin(pre, pages, 0, 50, 80);
    WithinConcat(pre, pages, 0, 80);
    assert NonDecreasing(post) && Within(post, 80, 100);
    NonDecreasingJoin(front, post, 0, 80, 100);
    WithinConcat(front, post, 0, 100);
    WithinConcat(body, [0], 0, 100);
  }

  /** Whatever the outcome, the run ends with `processing` false and `progress` 0, and `isDragging` untouched. */
  lemma ProcessTraceEndsIdle(s: UiState, f: InputFile)
    ensures Replay(s, ProcessTrace(f)) == UiState(s.isDragging, false, 0)
  {
    var body := TryBlock(f) + CatchBlock(f);
    assert ProcessTrace(f) == body + FinallyBlock;
    ReplayAppend(s, body, FinallyBlock);
    ProcessTraceNoDragging(f);
    assert forall e | e in body :: e in ProcessTrace(f);
    ReplayKeepsDragging(s, body);
    FinallyReplay(Replay(s, body));
  }

  lemma FinallyReplay(s: UiState)
    ensures Replay(s, FinallyBlock) == s.(processing := false, progress := 0)
  {
    var p, q := SetProcessing(false), SetProgress(0);
    assert FinallyBlock[1..] == [q];
    assert [q][1..] == [];
  }

  /** A run never touches `isDragging`. */
  lemma ProcessTraceNoDragging(f: InputFile)
    ensures NoDragging(ProcessTrace(f))
  {
    ProcessTraceSplit(f);
    PreludeQuiet(f.content);
    EpilogueCollect(f);
    PageEventsQuiet(f.content.pageCount, PagesDrawn(f.content));
  }


  /** The first file of a `FileList`, or nothing: `files[0]` is `undefined` for an empty list. */
  function FirstFile(files: seq<InputFile>): Option<InputFile> {
    if |files| == 0 then None else Some(files[0])
  }

  /** `file && file.type === 'application/pdf'`, lines 93 and 102. */
  predicate IsPdf(file: Option<InputFile>) {
    file.Some? && file.value.mimeType == PdfMimeType
  }

  /** What the handlers do with the file they picked: process it if it is a PDF, else alert. */
  function SelectionTrace(file: Option<InputFile>): seq<Event> {
    if IsPdf(file) then ProcessTrace(file.value) else [Alert(InvalidFileMessage)]
  }

  /** `handleDrop`, lines 88-98. */
  function DropTrace(files: seq<InputFile>): seq<Event> {
    [SetDragging(false)] + SelectionTrace(FirstFile(files))
  }

  /** `handleFileSelect`, lines 100-107; `files` is `null` when the input has no file list. */
  function FileSelectTrace(files: Option<seq<InputFile>>): seq<Event> {
    SelectionTrace(if files.Some? then FirstFile(files.value) else None)
  }

  /** Only the first file of a drop or a selection matters: lists that agree on it give the same effects. */
  lemma OnlyFirstFileMatters(a: seq<InputFile>, b: seq<InputFile>)
    requires |a| > 0 && |b| > 0 && a[0] == b[0]
    ensures DropTrace(a) == DropTrace(b)
    ensures FileSelectTrace(Some(a)) == FileSelectTrace(Some(b))
  {
    assert FirstFile(a) == FirstFile(b);
  }

  /**
    A picked file starts processing iff it exists and its type is exactly
    `application/pdf`; otherwise the only effect is the alert, and the state is unchanged.
  */
  lemma SelectionProcessesIff(s: UiState, file: Option<InputFile>)
    ensures SetProcessing(true) in SelectionTrace(file) <==> file.Some? && file.value.mimeType == PdfMimeType
    ensures !IsPdf(file) ==> SelectionTrace(file) == [Alert(InvalidFileMessage)] && Replay(s, SelectionTrace(file)) == s
    ensures Replay(s, SelectionTrace(file)).isDragging == s.isDragging
    ensures IsPdf(file) ==> Replay(s, SelectionTrace(file)) == UiState(s.isDragging, false, 0)
  {
    if IsPdf(file) {
      ProcessTraceEndsIdle(s, file.value);
    } else {
      assert Replay(s, [Alert(InvalidFileMessage)]) == Replay(s, []);
    }
  }

  /** A drop processes the first dropped file iff it is a PDF, and always leaves `isDragging` false. */
  lemma DropProcessesIff(s: UiState, files: seq<InputFile>)
    ensures SetProcessing(true) in DropTrace(files) <==> |files| > 0 && files[0].mimeType == PdfMimeType
    ensures !Replay(s, DropTrace(files)).isDragging
  {
    var rest := SelectionTrace(FirstFile(files));
    SelectionProcessesIff(s.(isDragging := false), FirstFile(files));
    ReplayAppend(s, [SetDragging(false)], rest);
  }

  /** A file selection processes the first selected file iff it is a PDF, and leaves `isDragging` alone. */
  lemma FileSelectProcessesIff(s: UiState, files: Option<seq<InputFile>>)
    ensures SetProcessing(true) in FileSelectTrace(files)
        <==> files.Some? && |files.value| > 0 && files.value[0].mimeType == PdfMimeType
    ensures Replay(s, FileSelectTrace(files)).isDragging == s.isDragging
  {
    SelectionProcessesIff(s, if files.Some? then FirstFile(files.value) else None);
  }
}
