/** Text extraction from uploaded CV/JD files and the fallbacks of the two
    language-model helpers. The parsing libraries are not modelled: an
    uploaded file is described by what each library yields on its bytes. */
module CvJdProcessor {
  import opened Models

  /** An uploaded file: its name, the per-page texts the PDF reader yields on
      its bytes (a page without text is None), and the paragraph texts the
      DOCX reader yields. A reader that raises on the bytes is None. */
  datatype UploadedFile = UploadedFile(
    filename: string,
    pdfPages: Option<seq<Option<string>>>,
    docxParagraphs: Option<seq<string>>)

  predicate EndsWith(s: string, suffix: string)
  {
    |suffix| <= |s| && s[|s| - |suffix|..] == suffix
  }

  datatype FileKind = Pdf | Docx | Unsupported

  /** The extractor a file name is dispatched to: `.pdf` is tested first,
      then `.docx`, both case-sensitively. */
  function KindOf(filename: string): (k: FileKind)
    ensures k == Pdf <==> EndsWith(filename, ".pdf")
    ensures k == Docx <==> !EndsWith(filename, ".pdf") && EndsWith(filename, ".docx")
    ensures k == Unsupported <==> !EndsWith(filename, ".pdf") && !EndsWith(filename, ".docx")
  {
    if EndsWith(filename, ".pdf") then Pdf
    else if EndsWith(filename, ".docx") then Docx
    else Unsupported
  }

  /** No name ends with both suffixes, so testing `.pdf` first never hides a
      `.docx` file. */
  lemma SuffixesDisjoint(filename: string)
    ensures !(EndsWith(filename, ".pdf") && EndsWith(filename, ".docx"))
  {
    if EndsWith(filename, ".pdf") {
      assert filename[|filename| - 4..][3] == 'f';
      assert !EndsWith(filename, ".docx") by {
        if |filename| >= 5 {
          assert filename[|filename| - 5..][4] == 'f';
        }
      }
    }
  }

  /** The suffix test is case-sensitive: an upper-case extension is unsupported. */
  lemma UpperCaseUnsupported()
    ensures KindOf("CV.PDF") == Unsupported
    ensures KindOf("JD.DOCX") == Unsupported
    ensures KindOf("cv.pdf") == Pdf
    ensures KindOf("jd.docx") == Docx
  {
    assert "CV.PDF"[2..] != ".pdf" by { assert "CV.PDF"[2..][1] == 'P'; }
    assert "CV.PDF"[1..] != ".docx" by { assert "CV.PDF"[1..][0] == 'V'; }
    assert "JD.DOCX"[3..] != ".pdf" by { assert "JD.DOCX"[3..][0] == 'D'; }
    assert "JD.DOCX"[2..] != ".docx" by { assert "JD.DOCX"[2..][1] == 'D'; }
    assert "cv.pdf"[2..] == ".pdf";
    assert "jd.docx"[3..] != ".pdf" by { assert "jd.docx"[3..][0] == 'd'; }
    assert "jd.docx"[2..] == ".docx";
  }

  /** The text of one PDF page as accumulated: a page without text adds "". */
  function PageText(page: Option<string>): (r: string)
    ensures page.None? ==> r == ""
    ensures page.Some? ==> r == page.value
  {
    if page.Some? then page.value else ""
  }

  /** The PDF text: the page texts concatenated in page order. */
  function PdfText(pages: seq<Option<string>>): (r: string)
    ensures forall i :: 0 <= i < |pages| ==> |PageText(pages[i])| <= |r|
  {
    if pages == [] then ""
    else PdfText(pages[..|pages| - 1]) + PageText(pages[|pages| - 1])
  }

  /** The DOCX text: every paragraph followed by a newline, in order. */
  function DocxText(paragraphs: seq<string>): (r: string)
    ensures |r| >= |paragraphs|
    ensures forall i :: 0 <= i < |paragraphs| ==> |paragraphs[i]| < |r|
  {
    if paragraphs == [] then ""
    else DocxText(paragraphs[..|paragraphs| - 1]) + paragraphs[|paragraphs| - 1] + "\n"
  }

  /** Concatenating page lists concatenates their texts. */
  lemma {:induction false} PdfTextAppend(a: seq<Option<string>>, b: seq<Option<string>>)
    ensures PdfText(a + b) == PdfText(a) + PdfText(b)
    decreases |b|
  {
    if b == [] {
      assert a + b == a;
    } else {
      var init := b[..|b| - 1];
      PdfTextAppend(a, init);
      assert (a + b)[..|a + b| - 1] == a + init;
      assert (a + b)[|a + b| - 1] == b[|b| - 1];
      calc {
        PdfText(a + b);
        PdfText(a + init) + PageText(b[|b| - 1]);
        PdfText(a) + PdfText(init) + PageText(b[|b| - 1]);
        PdfText(a) + PdfText(b);
      }
    }
  }

  /** The PDF text is empty exactly when no page yields any text. */
  lemma {:induction false} PdfTextEmpty(pages: seq<Option<string>>)
    ensures PdfText(pages) == "" <==> forall i :: 0 <= i < |pages| ==> PageText(pages[i]) == ""
  {
    if pages != [] {
      var init := pages[..|pages| - 1];
      PdfTextEmpty(init);
      assert forall i :: 0 <= i < |init| ==> init[i] == pages[i];
    }
  }

  /** The DOCX text has one character per paragraph character plus one newline
      per paragraph; it is empty exactly when there are no paragraphs. */
  lemma {:induction false} DocxTextShape(paragraphs: seq<string>)
    ensures DocxText(paragraphs) == "" <==> paragraphs == []
    ensures paragraphs != [] ==> DocxText(paragraphs)[|DocxText(paragraphs)| - 1] == '\n'
    ensures |DocxText(paragraphs)| >= |paragraphs|
  {
    if paragraphs != [] {
      DocxTextShape(paragraphs[..|paragraphs| - 1]);
    }
  }

  /** `extract_text_from_pdf`: accumulate page texts; None when the reader raises. */
  method ExtractTextFromPdf(pages: Option<seq<Option<string>>>) returns (r: Option<string>)
    ensures pages.None? ==> r == None
    ensures pages.Some? ==> r == Some(PdfText(pages.value))
  {
    if pages.None? {
      return None;
    }
    var ps := pages.value;
    var text := "";
    var i := 0;
    while i < |ps|
      invariant 0 <= i <= |ps|
      invariant text == PdfText(ps[..i])
    {
      assert ps[..i + 1][..i] == ps[..i];
      text := text + (if ps[i].Some? then ps[i].value else "");
      i := i + 1;
    }
    assert ps[..i] == ps;
    return Some(text);
  }

  /** `extract_text_from_docx`: accumulate paragraph texts each followed by a
      newline; None when the reader raises. */
  method ExtractTextFromDocx(paragraphs: Option<seq<string>>) returns (r: Option<string>)
    ensures paragraphs.None? ==> r == None
    ensures paragraphs.Some? ==> r == Some(DocxText(paragraphs.value))
  {
    if paragraphs.None? {
      return None;
    }
    var ps := paragraphs.value;
    var text := "";
    var i := 0;
    while i < |ps|
      invariant 0 <= i <= |ps|
      invariant text == DocxText(ps[..i])
    {
      assert ps[..i + 1][..i] == ps[..i];
      text := text + ps[i] + "\n";
      i := i + 1;
    }
    assert ps[..i] == ps;
    return Some(text);
  }

  /** What `process_uploaded_file` yields for a file. */
  function ExtractedText(f: UploadedFile): (r: Option<string>)
    ensures r.Some? ==> KindOf(f.filename) != Unsupported
    ensures KindOf(f.filename) == Pdf ==> (r.None? <==> f.pdfPages.None?)
    ensures KindOf(f.filename) == Docx ==> (r.None? <==> f.docxParagraphs.None?)
  {
    match KindOf(f.filename)
    case Pdf => if f.pdfPages.None? then None else Some(PdfText(f.pdfPages.value))
    case Docx => if f.docxParagraphs.None? then None else Some(DocxText(f.docxParagraphs.value))
    case Unsupported => None
  }

  /** `process_uploaded_file`: dispatch on the file name's suffix. */
  method ProcessUploadedFile(f: UploadedFile) returns (r: Option<string>)
    ensures r == ExtractedText(f)
    ensures KindOf(f.filename) == Unsupported ==> r == None
    ensures KindOf(f.filename) == Pdf ==> (r.None? <==> f.pdfPages.None?)
    ensures KindOf(f.filename) == Docx ==> (r.None? <==> f.docxParagraphs.None?)
  {
    if EndsWith(f.filename, ".pdf") {
      r := ExtractTextFromPdf(f.pdfPages);
    } else if EndsWith(f.filename, ".docx") {
      r := ExtractTextFromDocx(f.docxParagraphs);
    } else {
      r := None;
    }
  }

  /** A file the upload handler accepts: extraction gave a non-empty text. */
  predicate Readable(text: Option<string>)
  {
    text.Some? && text.value != ""
  }

  /** Which files pass the upload handler's "text extracted" test: a PDF with
      at least one page that yields text, a DOCX with at least one paragraph
      (even an empty one, because of the trailing newline); nothing else. */
  lemma ReadableFiles(f: UploadedFile)
    ensures KindOf(f.filename) == Unsupported ==> !Readable(ExtractedText(f))
    ensures KindOf(f.filename) == Pdf ==>
      (Readable(ExtractedText(f)) <==>
        f.pdfPages.Some? && exists i :: 0 <= i < |f.pdfPages.value| && PageText(f.pdfPages.value[i]) != "")
    ensures KindOf(f.filename) == Docx ==>
      (Readable(ExtractedText(f)) <==> f.docxParagraphs.Some? && f.docxParagraphs.value != [])
  {
    if f.pdfPages.Some? {
      PdfTextEmpty(f.pdfPages.value);
    }
    if f.docxParagraphs.Some? {
      DocxTextShape(f.docxParagraphs.value);
    }
  }

  /** The JSON object the matching call yields; either field may be missing. */
  datatype MatchReply = MatchReply(score: Option<int>, feedback: Option<string>)

  /** The JSON object the suggestions call yields; the field may be missing. */
  datatype SuggestionsReply = SuggestionsReply(suggestions: Option<seq<string>>)

  const MatchFallbackFeedback: string := "Không thể phân tích. Vui lòng thử lại."
  const SuggestionsFallback: string := "Không thể đưa ra gợi ý. Vui lòng thử lại."

  /** `get_cv_jd_matching_score_and_feedback`. `reply` is the parsed model
      reply, or None when the call or the JSON parsing raised. The caller
      always receives an object; on failure it has score 0 and a non-empty
      explanation. */
  function MatchingScoreAndFeedback(reply: Option<MatchReply>): (d: MatchReply)
    ensures reply.Some? ==> d == reply.value
    ensures reply.None? ==> d.score == Some(0) && d.feedback == Some(MatchFallbackFeedback)
    ensures reply.None? ==> d.feedback.value != ""
  {
    if reply.Some? then reply.value else MatchReply(Some(0), Some(MatchFallbackFeedback))
  }

  /** `get_cv_improvement_suggestions`. On failure the caller receives
      exactly one fixed suggestion. */
  function ImprovementSuggestions(reply: Option<SuggestionsReply>): (d: SuggestionsReply)
    ensures reply.Some? ==> d == reply.value
    ensures reply.None? ==> d.suggestions == Some([SuggestionsFallback])
  {
    if reply.Some? then reply.value else SuggestionsReply(Some([SuggestionsFallback]))
  }
}
