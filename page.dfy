/**
  The `PDFProcessor` component of app/page.tsx as an object: its three pieces of
  React state are fields that the handlers update step by step, and `history`
  records every effect in the order the handlers produce it.  `Valid()` says the
  fields are exactly what replaying `history` from the initial state gives.
*/
module Page {
  import opened Options
  import opened FileNames
  import opened Trace

  class PdfProcessor {
    var isDragging: bool
    var processing: bool
    var progress: int
    ghost var history: seq<Event>

    function State(): UiState
      reads this
    {
      UiState(isDragging, processing, progress)
    }

    ghost predicate Valid()
      reads this
    {
      State() == Replay(Initial, history)
    }

    /** The `useState` calls, lines 17-19. */
    constructor ()
      ensures Valid() && history == [] && State() == Initial
    {
      isDragging, processing, progress := false, false, 0;
      history := [];
    }

    /** Perform one effect: a state setter updates its field; a draw, a download or an alert changes no state. */
    method Emit(e: Event)
      requires Valid()
      modifies this
      ensures Valid()
      ensures history == old(history) + [e]
      ensures State() == Apply(old(State()), e)
    {
      ReplayAppend(Initial, history, [e]);
      match e {
        case SetDragging(on) => isDragging := on;
        case SetProcessing(on) => processing := on;
        case SetProgress(v) => progress := v;
        case _ =>
      }
      history := history + [e];
    }

    /**
      The `try` block of `processPDF`, lines 22-68: each awaited step either
      throws, which ends the block with `threw`, or is followed by its progress write.
    */
    method RunTryBlock(file: InputFile) returns (threw: bool)
      requires Valid()
      modifies this
      ensures Valid()
      ensures history == old(history) + TryBlock(file)
      ensures threw <==> !Succeeds(file.content)
      ensures isDragging == old(isDragging)
    {
      var c := file.content;
      threw := OpenDocument(c);
      if threw {
        TryBlockWhenOpenThrows(file);
        return;
      }
      ghost var prelude := history;
      threw := StampPages(c);
      ghost var stamped := history;
      AppendAssoc(old(history), Prelude(c), stamped[|prelude|..]);
      if threw {
        TryBlockWhenDrawThrows(file);
        return;
      }
      threw := SaveAndDownload(file);
      AppendAssoc(old(history), Prelude(c) + PageEvents(c.pageCount, c.pageCount), history[|stamped|..]);
      TryBlockAfterPages(file);
    }

    /**
      Lines 23-31: set `processing`, write 20, read the bytes, write 40, load the
      document and embed the font, write 50; stop at the first step that throws.
    */
    method OpenDocument(c: PdfContent) returns (threw: bool)
      requires Valid()
      modifies this
      ensures Valid()
      ensures threw <==> Throws(c, ReadBytes) || Throws(c, Load) || Throws(c, EmbedFont)
      ensures history == old(history) + Prelude(c)
      ensures isDragging == old(isDragging)
    {
      Emit(SetProcessing(true));
      Emit(SetProgress(20));
      if c.failure == Some(ReadBytes) {
        return true;
      }
      Emit(SetProgress(40));
      if c.failure == Some(Load) || c.failure == Some(EmbedFont) {
        return true;
      }
      Emit(SetProgress(50));
      threw := false;
    }

    /** Lines 51-64: save the document, write 90, trigger the download, write 100. */
    method SaveAndDownload(file: InputFile) returns (threw: bool)
      requires Valid()
      modifies this
      ensures Valid()
      ensures threw <==> Throws(file.content, Save)
      ensures history == old(history) + (if threw then [] else SaveSteps(DownloadName(file.name)))
      ensures isDragging == old(isDragging)
    {
      if file.content.failure == Some(Save) {
        return true;
      }
      Emit(SetProgress(90));
      Emit(Download(DownloadName(file.name)));
      Emit(SetProgress(100));
      threw := false;
    }

    /**
      The `forEach` over the pages, lines 35-49: stamp page `i`, then write the
      progress for it, until the pages run out or drawing throws.
    */
    method StampPages(c: PdfContent) returns (threw: bool)
      requires Valid()
      modifies this
      ensures Valid()
      ensures threw <==> DrawThrows(c)
      ensures history == old(history) + PageEvents(c.pageCount, if threw then c.failure.value.index else c.pageCount)
      ensures isDragging == old(isDragging) && processing == old(processing)
    {
      var n := c.pageCount;
      var i := 0;
      while i < n
        invariant 0 <= i <= n
        invariant Valid()
        invariant history == old(history) + PageEvents(n, i)
        invariant isDragging == old(isDragging) && processing == old(processing)
        invariant forall j :: 0 <= j < i ==> c.failure != Some(DrawPage(j))
      {
        if c.failure == Some(DrawPage(i)) {
          return true;
        }
        StampPage(i, n);
        AppendAssoc(old(history), PageEvents(n, i), [Draw(i), SetProgress(PageProgress(i, n))]);
        i := i + 1;
      }
      threw := false;
    }

    /** One iteration of the page loop, lines 36-48: draw on page `i` of `n`, then write its progress. */
    method StampPage(i: nat, n: nat)
      requires Valid() && i < n
      modifies this
      ensures Valid()
      ensures history == old(history) + [Draw(i), SetProgress(PageProgress(i, n))]
      ensures progress == PageProgress(i, n)
      ensures isDragging == old(isDragging) && processing == old(processing)
    {
      Emit(Draw(i));
      Emit(SetProgress(50 + ((i + 1) * 30) / n));
    }

    /**
      `processPDF(file)`, lines 21-76: the `try` block, the alert of the `catch`
      block if it threw, and the reset of the `finally` block on every path.
    */
    method ProcessPdf(file: InputFile)
      requires Valid()
      modifies this
      ensures Valid()
      ensures history == old(history) + ProcessTrace(file)
      ensures !processing && progress == 0 && isDragging == old(isDragging)
    {
      var threw := RunTryBlock(file);
      if threw {
        Emit(Alert(ProcessingErrorMessage));
      }
      ghost var caught := history;
      AppendAssoc(old(history), TryBlock(file), CatchBlock(file));
      Emit(SetProcessing(false));
      Emit(SetProgress(0));
      assert history == caught + FinallyBlock;
      AppendAssoc(old(history), TryBlock(file) + CatchBlock(file), FinallyBlock);
    }

    /** `handleDragOver`, lines 78-81. */
    method HandleDragOver()
      requires Valid()
      modifies this
      ensures Valid()
      ensures history == old(history) + [SetDragging(true)]
      ensures isDragging && processing == old(processing) && progress == old(progress)
    {
      Emit(SetDragging(true));
    }

    /** `handleDragLeave`, lines 83-86. */
    method HandleDragLeave()
      requires Valid()
      modifies this
      ensures Valid()
      ensures history == old(history) + [SetDragging(false)]
      ensures !isDragging && processing == old(processing) && progress == old(progress)
    {
      Emit(SetDragging(false));
    }

    /** Lines 93-97 and 102-106: process the picked file if it is a PDF, else alert. */
    method ProcessIfPdf(file: Option<InputFile>)
      requires Valid()
      modifies this
      ensures Valid()
      ensures history == old(history) + SelectionTrace(file)
      ensures isDragging == old(isDragging)
      ensures IsPdf(file) ==> !processing && progress == 0
      ensures !IsPdf(file) ==> processing == old(processing) && progress == old(progress)
    {
      if IsPdf(file) {
        ProcessPdf(file.value);
      } else {
        Emit(Alert(InvalidFileMessage));
      }
    }

    /** `handleDrop`, lines 88-98: only the first dropped file is considered. */
    method HandleDrop(files: seq<InputFile>)
      requires Valid()
      modifies this
      ensures Valid()
      ensures history == old(history) + DropTrace(files)
      ensures !isDragging
      ensures IsPdf(FirstFile(files)) ==> !processing && progress == 0
      ensures !IsPdf(FirstFile(files)) ==> processing == old(processing) && progress == old(progress)
    {
      Emit(SetDragging(false));
      ProcessIfPdf(FirstFile(files));
      AppendAssoc(old(history), [SetDragging(false)], SelectionTrace(FirstFile(files)));
    }

    /** `handleFileSelect`, lines 100-107: `files` is `None` when the input's file list is `null`. */
    method HandleFileSelect(files: Option<seq<InputFile>>)
      requires Valid()
      modifies this
      ensures Valid()
      ensures history == old(history) + FileSelectTrace(files)
      ensures isDragging == old(isDragging)
      ensures var file := if files.Some? then FirstFile(files.value) else None;
        && (IsPdf(file) ==> !processing && progress == 0)
        && (!IsPdf(file) ==> processing == old(processing) && progress == old(progress))
    {
      var file := if files.Some? then FirstFile(files.value) else None;
      ProcessIfPdf(file);
    }
  }
}
