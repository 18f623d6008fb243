/**
 * The word-processor, plain-text and PDF handlers: `is_rtl`, `translate_docx`,
 * `translate_txt` and `translate_pdf`. A document is its sequence of body
 * paragraphs; loading and saving files are inputs of the model.
 */
module DocHandler {
  import opened Common
  import opened Text
  import opened Paths
  import opened Progress
  import opened Units
  import opened Chunker

  /** Characters sent per call of the translator in the text and PDF handlers. */
  const MaxChunkSize := 4000

  /** The right-to-left language codes, lower case. */
  const RtlLanguages: seq<string> := ["fa", "ar", "he", "ur"]

  /** `is_rtl(lang)` */
  function IsRtl(lang: string): (r: bool)
    ensures r <==> exists k :: 0 <= k < |RtlLanguages| && SpellsIgnoringCase(lang, RtlLanguages[k])
  {
    RtlCodes(lang);
    Lower(lang) in RtlLanguages
  }

  /** `lang` spells `code` letter by letter, whatever the case of its letters. */
  predicate SpellsIgnoringCase(lang: string, code: string) {
    |lang| == |code| && forall i :: 0 <= i < |code| ==> LowerChar(lang[i]) == code[i]
  }

  /** `lang.lower()` is a code of the list exactly when `lang` spells it, case aside. */
  lemma RtlCodes(lang: string)
    ensures Lower(lang) in RtlLanguages <==> exists k :: 0 <= k < |RtlLanguages| && SpellsIgnoringCase(lang, RtlLanguages[k])
  {
    if Lower(lang) in RtlLanguages {
      var k :| 0 <= k < |RtlLanguages| && RtlLanguages[k] == Lower(lang);
      assert SpellsIgnoringCase(lang, RtlLanguages[k]);
    }
    if exists k :: 0 <= k < |RtlLanguages| && SpellsIgnoringCase(lang, RtlLanguages[k]) {
      var k :| 0 <= k < |RtlLanguages| && SpellsIgnoringCase(lang, RtlLanguages[k]);
      assert Lower(lang) == RtlLanguages[k];
    }
  }

  /** `WD_ALIGN_PARAGRAPH`, with `Inherited` for the unset value `None`. */
  datatype Alignment = Inherited | Left | Center | Right | Justify

  /** A run: its text and its character formatting (font, bold, inline picture, ...), kept opaque. */
  datatype Run = Run(text: string, format: map<string, string>)

  /** A body paragraph: its runs and the paragraph properties the handlers read or set. */
  datatype Paragraph = Paragraph(runs: seq<Run>, alignment: Alignment, rightToLeft: Option<bool>, style: Option<string>)

  /** `para.text`: the texts of the runs, concatenated. */
  function ParagraphText(p: Paragraph): string {
    RunsText(p.runs)
  }

  function RunsText(runs: seq<Run>): string
    decreases |runs|
  {
    if runs == [] then "" else RunsText(runs[..|runs| - 1]) + runs[|runs| - 1].text
  }

  /** Right alignment and right-to-left direction, applied when the target language needs them. */
  function RtlFormatted(p: Paragraph, rtl: bool): Paragraph {
    if rtl then p.(alignment := Right, rightToLeft := Some(true)) else p
  }

  /** `para.clear()`, then `para.add_run(translated)`, then the right-to-left settings. */
  function Rewritten(p: Paragraph, translated: string, rtl: bool): (r: Paragraph)
    ensures r.runs == [Run(translated, map[])] && r.style == p.style
    ensures rtl ==> r.alignment == Right && r.rightToLeft == Some(true)
    ensures !rtl ==> r.alignment == p.alignment && r.rightToLeft == p.rightToLeft
  {
    RtlFormatted(p.(runs := [Run(translated, map[])]), rtl)
  }

  /** `output_doc.add_paragraph(text)` with the right-to-left settings; an empty text adds no run. */
  function NewParagraph(text: string, rtl: bool): (r: Paragraph)
    ensures r.runs == [] <==> text == ""
    ensures r.style == None
    ensures rtl ==> r.alignment == Right && r.rightToLeft == Some(true)
    ensures !rtl ==> r.alignment == Inherited && r.rightToLeft == None
  {
    RtlFormatted(Paragraph(if text == "" then [] else [Run(text, map[])], Inherited, None, None), rtl)
  }

  // ------------------------------------------------------------ translate_docx

  /** The rewrite `translate_docx` applies to a paragraph with its translation. */
  function Rewriter(rtl: bool): (Paragraph, string) -> Paragraph {
    (p, t) => Rewritten(p, t, rtl)
  }

  /** `translate_docx` from the loaded paragraphs to the reports made and the document saved. */
  function DocxTranslation(loaded: Result<seq<Paragraph>, string>, saveError: Option<string>,
                           targetLang: string, tr: Translate): Handled<seq<Paragraph>>
  {
    match loaded
    case Failure(e) => Handled([], Failure(e))
    case Success(ps) =>
      var texts := UnitTexts(ps, ParagraphText);
      var h := Halt(true, texts, tr);
      var reports := Reports("paragraph", h, |ps|);
      if h < |ps| then Handled(reports, Failure(tr(CallIndex(true, texts, h), texts[h]).error))
      else if saveError.Some? then Handled(reports, Failure(saveError.value))
      else Handled(reports, Success(Rewrite(ps, ParagraphText, Rewriter(IsRtl(targetLang)), tr, |ps|)))
  }

  /** `translate_docx`: load, the paragraph loop, save. */
  method TranslateDocx(loaded: Result<seq<Paragraph>, string>, saveError: Option<string>,
                       targetLang: string, tr: Translate) returns (out: Handled<seq<Paragraph>>)
    ensures out == DocxTranslation(loaded, saveError, targetLang, tr)
  {
    if loaded.Failure? {
      return Handled([], Failure(loaded.error));
    }
    var ps := loaded.value;
    var paras := new Paragraph[|ps|](i requires 0 <= i < |ps| => ps[i]);
    assert paras[..] == ps;
    var sent, reports, failure := RewriteUnits(paras, "paragraph", ParagraphText, Rewriter(IsRtl(targetLang)), tr);
    if failure.Some? {
      return Handled(reports, Failure(failure.value));
    }
    if saveError.Some? {
      return Handled(reports, Failure(saveError.value));
    }
    return Handled(reports, Success(paras[..]));
  }

  // ------------------------------------------------------------- translate_txt

  /** The translations of all chunks, when no call raises. */
  function TranslatedChunks(chunks: seq<string>, tr: Translate): (r: seq<string>)
    requires forall i :: 0 <= i < |chunks| ==> tr(i, chunks[i]).Done?
    ensures |r| == |chunks|
  {
    seq(|chunks|, i requires 0 <= i < |chunks| => tr(i, chunks[i]).text)
  }

  /** `translate_txt` from the file's text to the reports made and the text written. */
  function TxtTranslation(loaded: Result<string, string>, saveError: Option<string>, tr: Translate): Handled<string> {
    match loaded
    case Failure(e) => Handled([], Failure(e))
    case Success(text) =>
      var chunks := Chunks(text, MaxChunkSize);
      var h := Halt(false, chunks, tr);
      var reports := Reports("chunk", h, |chunks|);
      CallIndexSkipNothing(chunks);
      if h < |chunks| then Handled(reports, Failure(tr(h, chunks[h]).error))
      else if saveError.Some? then Handled(reports, Failure(saveError.value))
      else HaltAllDone(chunks, tr); Handled(reports, Success(JoinLines(TranslatedChunks(chunks, tr))))
  }

  /** `translate_txt`: read, chunk, translate every chunk, write the translations joined by newlines. */
  method TranslateTxt(loaded: Result<string, string>, saveError: Option<string>, tr: Translate)
    returns (out: Handled<string>)
    ensures out == TxtTranslation(loaded, saveError, tr)
  {
    if loaded.Failure? {
      return Handled([], Failure(loaded.error));
    }
    var chunks := ChunkText(loaded.value, MaxChunkSize);
    var translated, sent, reports, failure := TranslateChunks(chunks, tr);
    CallIndexSkipNothing(chunks);
    if failure.Some? {
      return Handled(reports, Failure(failure.value));
    }
    if saveError.Some? {
      return Handled(reports, Failure(saveError.value));
    }
    assert translated == TranslatedChunks(chunks, tr);
    return Handled(reports, Success(JoinLines(translated)));
  }

  // ------------------------------------------------------------- translate_pdf

  /** `splitext(output_path)[0] + '_translated.docx'` */
  function PdfOutputPath(outputPath: string): (r: string)
    ensures |r| >= 16 && r[|r| - 16..] == "_translated.docx"
  {
    SplitExt(outputPath).0 + "_translated.docx"
  }

  /** One paragraph per `'\n'`-piece of each translated chunk, in order. */
  function PdfParagraphs(translated: seq<string>, rtl: bool): (r: seq<Paragraph>)
    ensures |r| == |Pieces(translated)|
  {
    var pieces := Pieces(translated);
    seq(|pieces|, i requires 0 <= i < |pieces| => NewParagraph(pieces[i], rtl))
  }

  /** `translate_pdf` from the page texts to the reports made and the document saved under its path. */
  function PdfTranslation(loaded: Result<seq<string>, string>, outputPath: string, saveError: Option<string>,
                          targetLang: string, tr: Translate): Handled<(string, seq<Paragraph>)>
  {
    match loaded
    case Failure(e) => Handled([], Failure(e))
    case Success(pages) =>
      var chunks := Chunks(JoinLines(pages + [""]), MaxChunkSize);
      var h := Halt(false, chunks, tr);
      var reports := Reports("chunk", h, |chunks|);
      CallIndexSkipNothing(chunks);
      if h < |chunks| then Handled(reports, Failure(tr(h, chunks[h]).error))
      else if saveError.Some? then Handled(reports, Failure(saveError.value))
      else HaltAllDone(chunks, tr); Handled(reports, Success((PdfOutputPath(outputPath), PdfParagraphs(TranslatedChunks(chunks, tr), IsRtl(targetLang)))))
  }

  /** The page loop of `translate_pdf`: each page's text followed by a newline. */
  method PagesText(pages: seq<string>) returns (fullText: string)
    ensures fullText == JoinLines(pages + [""])
  {
    fullText := "";
    for i := 0 to |pages|
      invariant fullText == JoinLines(pages[..i] + [""])
    {
      assert pages[..i + 1] == pages[..i] + [pages[i]];
      if i == 0 {
        assert JoinLines(pages[..1] + [""]) == pages[0] + "\n" + "";
      } else {
        JoinLinesAppend(pages[..i], [""]);
        JoinLinesAppend(pages[..i], [pages[i]]);
        JoinLinesAppend(pages[..i + 1], [""]);
      }
      fullText := fullText + pages[i] + "\n";
    }
    assert pages[..|pages|] == pages;
  }

  /** The output loop of `translate_pdf`: a new document with one paragraph per line of each translation. */
  method BuildPdfDocument(translated: seq<string>, targetLang: string) returns (doc: seq<Paragraph>)
    ensures doc == PdfParagraphs(translated, IsRtl(targetLang))
  {
    doc := [];
    for i := 0 to |translated|
      invariant doc == PdfParagraphs(translated[..i], IsRtl(targetLang))
    {
      var lines := Split(translated[i]);
      ghost var before := Pieces(translated[..i]);
      for j := 0 to |lines|
        invariant doc == Paragraphs(before + lines[..j], IsRtl(targetLang))
      {
        assert before + lines[..j + 1] == (before + lines[..j]) + [lines[j]];
        doc := doc + [NewParagraph(lines[j], IsRtl(targetLang))];
      }
      assert translated[..i + 1] == translated[..i] + [translated[i]];
      PiecesAppend(translated[..i], translated[i]);
      assert lines[..|lines|] == lines;
    }
    assert translated[..|translated|] == translated;
  }

  /** A paragraph per piece. */
  function Paragraphs(pieces: seq<string>, rtl: bool): (r: seq<Paragraph>)
    ensures |r| == |pieces| && forall i :: 0 <= i < |pieces| ==> r[i] == NewParagraph(pieces[i], rtl)
  {
    seq(|pieces|, i requires 0 <= i < |pieces| => NewParagraph(pieces[i], rtl))
  }

  /** `translate_pdf`: extract the pages, chunk, translate every chunk, build and save a new document. */
  method TranslatePdf(loaded: Result<seq<string>, string>, outputPath: string, saveError: Option<string>,
                      targetLang: string, tr: Translate) returns (out: Handled<(string, seq<Paragraph>)>)
    ensures out == PdfTranslation(loaded, outputPath, saveError, targetLang, tr)
  {
    if loaded.Failure? {
      return Handled([], Failure(loaded.error));
    }
    var fullText := PagesText(loaded.value);
    var chunks := ChunkText(fullText, MaxChunkSize);
    var translated, sent, reports, failure := TranslateChunks(chunks, tr);
    CallIndexSkipNothing(chunks);
    if failure.Some? {
      return Handled(reports, Failure(failure.value));
    }
    assert translated == TranslatedChunks(chunks, tr);
    var doc := BuildPdfDocument(translated, targetLang);
    if saveError.Some? {
      return Handled(reports, Failure(saveError.value));
    }
    return Handled(reports, Success((PdfOutputPath(outputPath), doc)));
  }

  // -------------------------------------------------------------------- lemmas

  /** `is_rtl` ignores letter case: exactly the four codes in any mix of cases. */
  lemma IsRtlIgnoresCase(lang: string)
    ensures IsRtl(lang) == IsRtl(Lower(lang))
    ensures IsRtl("FA") && IsRtl("Ar") && IsRtl("he") && IsRtl("UR")
    ensures !IsRtl("en") && !IsRtl("fas") && !IsRtl("")
  {
    LowerIdempotent(lang);
    assert Lower("FA") == "fa";
    assert Lower("Ar") == "ar";
    assert Lower("UR") == "ur";
    assert Lower("he") == "he";
    assert Lower("en") == "en";
    assert Lower("fas") == "fas";
    assert Lower("") == "";
    assert "en" != "fa" && "en" != "ar" && "en" != "he" && "en" != "ur";
  }

  /** A rewritten paragraph holds exactly its translation as text and keeps its style. */
  lemma RewrittenText(p: Paragraph, t: string, rtl: bool)
    ensures ParagraphText(Rewritten(p, t, rtl)) == t
    ensures Rewritten(p, t, rtl).style == p.style
    ensures rtl ==> Rewritten(p, t, rtl).alignment == Right && Rewritten(p, t, rtl).rightToLeft == Some(true)
    ensures !rtl ==> Rewritten(p, t, rtl).alignment == p.alignment && Rewritten(p, t, rtl).rightToLeft == p.rightToLeft
  {
    assert RunsText([Run(t, map[])]) == RunsText([]) + t;
  }

  /**
   * What `translate_docx` saves when every call answers: as many paragraphs as were
   * loaded, and the reports run up to 100. Paragraph `i` is untouched when blank;
   * otherwise it holds exactly one run, the translation its call returned, keeps its
   * style, and is right-aligned and right-to-left exactly when the target is RTL.
   */
  lemma DocxSaved(ps: seq<Paragraph>, targetLang: string, tr: Translate, i: nat)
    requires DocxTranslation(Success(ps), None, targetLang, tr).result.Success?
    requires i < |ps|
    ensures var out := DocxTranslation(Success(ps), None, targetLang, tr);
      var saved := out.result.value;
      && |saved| == |ps|
      && |out.reports| == |ps|
      && out.reports[|ps| - 1].progress == 100
      && (IsBlank(ParagraphText(ps[i])) ==> saved[i] == ps[i])
      && (!IsBlank(ParagraphText(ps[i])) ==>
            var reply := tr(CallIndex(true, UnitTexts(ps, ParagraphText), i), ParagraphText(ps[i]));
            && reply.Done?
            && saved[i].runs == [Run(reply.text, map[])]
            && saved[i].style == ps[i].style
            && (IsRtl(targetLang) ==> saved[i].alignment == Right && saved[i].rightToLeft == Some(true))
            && (!IsRtl(targetLang) ==> saved[i].alignment == ps[i].alignment && saved[i].rightToLeft == ps[i].rightToLeft))
  {
    var texts := UnitTexts(ps, ParagraphText);
    var h := HaltFrom(true, texts, tr, 0);
    assert h == |ps|;
    BeforeHalt(true, texts, tr, i);
    RewriteAll(ps, ParagraphText, Rewriter(IsRtl(targetLang)), tr, i);
    ReportsTrace("paragraph", |ps|, |ps|);
  }

  /** Writing the identity translation back reproduces a text with no empty line. */
  lemma TxtIdentityRoundTrip(text: string, tr: Translate)
    requires forall k: nat, t :: tr(k, t) == Done(t)
    requires forall i :: 0 <= i < |Split(text)| ==> Split(text)[i] != ""
    ensures TxtTranslation(Success(text), None, tr).result == Success(text)
  {
    var chunks := Chunks(text, MaxChunkSize);
    var h := HaltFrom(false, chunks, tr, 0);
    assert h == |chunks|;
    HaltAllDone(chunks, tr);
    assert TranslatedChunks(chunks, tr) == chunks;
    ChunksRejoin(text, MaxChunkSize);
  }

  /** `translate_txt` reports at most once per chunk, never decreasing; on success once per chunk, ending at 100. */
  lemma TxtReports(text: string, saveError: Option<string>, tr: Translate)
    ensures var out := TxtTranslation(Success(text), saveError, tr);
      var chunks := Chunks(text, MaxChunkSize);
      && |out.reports| <= |chunks|
      && (out.result.Success? ==> |out.reports| == |chunks| && (0 < |chunks| ==> out.reports[|chunks| - 1].progress == 100))
      && (forall i, j :: 0 <= i <= j < |out.reports| ==> out.reports[i].progress <= out.reports[j].progress)
  {
    var chunks := Chunks(text, MaxChunkSize);
    ReportsTrace("chunk", Halt(false, chunks, tr), |chunks|);
  }

  /** The text gathered from the pages: their lines, page after page, then one empty line. */
  lemma FullTextLines(pages: seq<string>)
    ensures Split(JoinLines(pages + [""])) == Pieces(pages) + [""]
  {
    SplitJoinLines(pages + [""]);
    PiecesAppend(pages, "");
    assert Split("") == [""];
  }

  lemma NewParagraphText(text: string, rtl: bool)
    ensures ParagraphText(NewParagraph(text, rtl)) == text
  {
    if text != "" {
      assert RunsText([Run(text, map[])]) == RunsText([]) + text;
    }
  }

  /**
   * The document `translate_pdf` builds holds the translations: one paragraph per line,
   * none holding a newline, and read back line by line it is the translations joined by
   * newlines.
   */
  lemma PdfParagraphsHoldTranslation(translated: seq<string>, rtl: bool)
    ensures forall p :: p in PdfParagraphs(translated, rtl) ==> '\n' !in ParagraphText(p)
    ensures JoinLines(UnitTexts(PdfParagraphs(translated, rtl), ParagraphText)) == JoinLines(translated)
  {
    var doc := PdfParagraphs(translated, rtl);
    var pieces := Pieces(translated);
    forall i | 0 <= i < |doc| ensures ParagraphText(doc[i]) == pieces[i] {
      NewParagraphText(pieces[i], rtl);
    }
    assert UnitTexts(doc, ParagraphText) == pieces;
    if translated != [] {
      JoinPieces(translated);
    }
  }

  /** The saved path keeps everything of the requested path but its extension. */
  lemma PdfOutputPathStem(outputPath: string)
    ensures var r := PdfOutputPath(outputPath);
      |r| - 16 <= |outputPath| && r[..|r| - 16] == outputPath[..|r| - 16]
      && (r[..|r| - 16] == outputPath || outputPath[|r| - 16] == '.')
  {
    var (stem, ext) := SplitExt(outputPath);
    assert stem + ext == outputPath;
    var r := PdfOutputPath(outputPath);
    assert r[..|r| - 16] == stem;
  }
}
