/**
  The name given to the downloaded file (app/page.tsx, line 58).

  The page builds it as `name.replace('.pdf', '') + '-processed.pdf'`.  With a
  string pattern, JavaScript's `String.prototype.replace` replaces only the first,
  case-sensitive occurrence of the pattern; with an empty replacement no `$`
  substitution can arise.  Dafny's `char` is a Unicode scalar value where
  JavaScript uses UTF-16 code units; the pattern is ASCII, so where it matches
  is the same under both.
*/
module FileNames {
  import opened Options

  const PdfExtension := ".pdf"
  const ProcessedSuffix := "-processed.pdf"

  /** `p` occurs in `s` starting at index `k`. */
  predicate OccursAt(s: string, p: string, k: int) {
    0 <= k && k + |p| <= |s| && s[k..k + |p|] == p
  }

  /** `k` is the first index at which `p` occurs in `s`. */
  predicate IsFirstOccurrence(s: string, p: string, k: int) {
    OccursAt(s, p, k) && forall j :: 0 <= j < k ==> !OccursAt(s, p, j)
  }

  /** `s` ends with `p`. */
  predicate EndsWith(s: string, p: string) {
    |p| <= |s| && s[|s| - |p|..] == p
  }

  /** The first index at or after `from` at which `p` occurs in `s`, as `indexOf` finds it. */
  function IndexOfFrom(s: string, p: string, from: nat): (r: Option<nat>)
    ensures r.Some? ==> from <= r.value && OccursAt(s, p, r.value)
    ensures forall j :: from <= j && (r.None? || j < r.value) ==> !OccursAt(s, p, j)
    decreases |s| - from
  {
    if from + |p| > |s| then None
    else if s[from..from + |p|] == p then Some(from)
    else IndexOfFrom(s, p, from + 1)
  }

  /** `s.replace(p, '')`: `s` with the first occurrence of `p` removed, or `s` itself when `p` does not occur. */
  function RemoveFirst(s: string, p: string): (r: string)
    ensures (forall k :: !OccursAt(s, p, k)) ==> r == s
    ensures forall k :: IsFirstOccurrence(s, p, k) ==> r == s[..k] + s[k + |p|..]
  {
    match IndexOfFrom(s, p, 0)
    case None => s
    case Some(k) => s[..k] + s[k + |p|..]
  }

  /** The download name exactly as line 58 computes it. */
  function DownloadNameAsWritten(name: string): string {
    RemoveFirst(name, PdfExtension) + ProcessedSuffix
  }

  lemma AsWrittenKeepsNameWithoutPattern(name: string)
    requires forall k :: !OccursAt(name, PdfExtension, k)
    ensures DownloadNameAsWritten(name) == name + ProcessedSuffix
  {
  }

  lemma AsWrittenRemovesFirstOccurrence(name: string, k: nat)
    requires IsFirstOccurrence(name, PdfExtension, k)
    ensures DownloadNameAsWritten(name) == name[..k] + name[k + 4..] + ProcessedSuffix
  {
  }

  /** `label.pdf` is downloaded as `label-processed.pdf`. */
  lemma AsWrittenLabelExample()
    ensures DownloadNameAsWritten("label" + PdfExtension) == "label" + ProcessedSuffix
  {
    var name := "label" + PdfExtension;
    NoDotBefore(name, 5);
    assert name[5..9] == PdfExtension;
    AsWrittenRemovesFirstOccurrence(name, 5);
    assert name[..5] == "label" && name[9..] == [];
  }

  /** The match is case-sensitive: `A.PDF` is kept whole. */
  lemma AsWrittenUpperCaseExample()
    ensures DownloadNameAsWritten("A.PDF") == "A.PDF" + ProcessedSuffix
  {
    var name := "A.PDF";
    NoDotBefore(name, 1);
    assert !OccursAt(name, PdfExtension, 1) by {
      assert name[1..5][1] == 'P' != PdfExtension[1];
    }
    AsWrittenKeepsNameWithoutPattern(name);
  }

  /** Only the first occurrence is removed: `a.pdf.pdf` becomes `a.pdf-processed.pdf`. */
  lemma AsWrittenDoubleExtensionExample()
    ensures DownloadNameAsWritten("a" + PdfExtension + PdfExtension) == "a" + PdfExtension + ProcessedSuffix
  {
    var name := "a" + PdfExtension + PdfExtension;
    NoDotBefore(name, 1);
    assert name[1..5] == PdfExtension;
    AsWrittenRemovesFirstOccurrence(name, 1);
    assert name[..1] + name[5..] == "a" + PdfExtension;
  }

  /**
    The first occurrence need not be the extension: for the base name `my.pdfs`
    the file `my.pdfs.pdf` is downloaded as `mys.pdf-processed.pdf`, not as
    `my.pdfs-processed.pdf`.
  */
  lemma AsWrittenMangledExample()
    ensures DownloadNameAsWritten("my.pdfs" + PdfExtension) == "mys" + PdfExtension + ProcessedSuffix
    ensures DownloadNameAsWritten("my.pdfs" + PdfExtension) != "my.pdfs" + ProcessedSuffix
  {
    var name := "my.pdfs" + PdfExtension;
    NoDotBefore(name, 2);
    assert name[2..6] == PdfExtension;
    AsWrittenRemovesFirstOccurrence(name, 2);
    assert name[..2] + name[6..] == "mys" + PdfExtension;
    assert ("mys" + PdfExtension + ProcessedSuffix)[2] != ("my.pdfs" + ProcessedSuffix)[2];
  }

  /** Helper for the examples: no `.pdf` starts before index `k` when no `.` does. */
  lemma NoDotBefore(s: string, k: nat)
    requires k <= |s|
    requires forall j :: 0 <= j < k ==> s[j] != '.'
    ensures forall j :: 0 <= j < k ==> !OccursAt(s, PdfExtension, j)
  {
    forall j | 0 <= j < k
      ensures !OccursAt(s, PdfExtension, j)
    {
      OccursAtPdfStartsWithDot(s, j);
    }
  }

  lemma OccursAtPdfStartsWithDot(s: string, j: int)
    ensures OccursAt(s, PdfExtension, j) ==> s[j] == '.'
  {
    if OccursAt(s, PdfExtension, j) {
      assert s[j..j + 4][0] == s[j];
    }
  }

  /** The extension-stripping the download name evidently intends: drop a trailing `.pdf`. */
  function StripPdfExtension(name: string): (r: string)
    ensures EndsWith(name, PdfExtension) ==> r + PdfExtension == name
    ensures !EndsWith(name, PdfExtension) ==> r == name
  {
    if EndsWith(name, PdfExtension) then name[..|name| - 4] else name
  }

  /** The download name with the evident intent of line 58: `<name without extension>-processed.pdf`. */
  function DownloadName(name: string): (r: string)
    ensures EndsWith(r, ProcessedSuffix)
  {
    StripPdfExtension(name) + ProcessedSuffix
  }

  /** The intended round trip: a file named `base.pdf` is downloaded as `base-processed.pdf`, whatever `base` is. */
  lemma DownloadNameOfPdf(base: string)
    ensures DownloadName(base + PdfExtension) == base + ProcessedSuffix
  {
    assert (base + PdfExtension)[..|base|] == base;
  }

  /** A name without the `.pdf` extension is kept whole. */
  lemma DownloadNameKeepsOtherNames(name: string)
    requires !EndsWith(name, PdfExtension)
    ensures DownloadName(name) == name + ProcessedSuffix
  {
  }

  /**
    The code as written agrees with the intended name whenever `.pdf` does not
    occur in the name, or occurs first as its extension.
  */
  lemma AsWrittenAgreesWhenFirstIsExtension(name: string)
    requires (forall k :: !OccursAt(name, PdfExtension, k))
          || IsFirstOccurrence(name, PdfExtension, |name| - 4)
    ensures DownloadNameAsWritten(name) == DownloadName(name)
  {
    if IsFirstOccurrence(name, PdfExtension, |name| - 4) {
      assert name[|name| - 4 + 4..] == [];
      assert EndsWith(name, PdfExtension);
    } else {
      assert !OccursAt(name, PdfExtension, |name| - 4);
    }
  }
}
