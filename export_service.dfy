/**
 * `createPdf`, `exportAsPdf`, `exportAsTxt` and `exportAsZip` in their imperative form:
 * a layout object whose fields are the mutable state of `createPdf` (the cursor `y`,
 * the document's pages and the current `page`), proved to compute the pure layout of
 * module Layout, and a zip object that gains entries in place.  pdf-lib's rendering and
 * `pdfDoc.save()` are the parameter `render`, which may fail.
 */
module ExportService {
  import opened Wrappers
  import opened Strings
  import opened Layout

  type Bytes = seq<bv8>

  /** The state `createPdf` mutates while it draws. */
  class PdfLayout {
    const env: Env
    /** The vertical cursor. */
    var y: real
    /** The pages of `pdfDoc` before the current one. */
    var done: seq<Page>
    /** The page `drawText` draws on: the last page of `pdfDoc`. */
    var page: Page

    function State(): Cursor
      reads this
    {
      Cursor(y, done, page)
    }

    /** `PDFDocument.create()`, the first `addPage()` and `y = height - margin`. */
    constructor (env: Env)
      ensures this.env == env && State() == Start(env)
    {
      this.env := env;
      y := env.pageHeight - Margin;
      done := [];
      page := [];
    }

    /** The inner `drawText` closure. */
    method DrawText(text: string, font: Font, size: int)
      modifies this
      ensures State() == Draw(env, old(State()), text, font, size)
    {
      var textHeight := env.heightAtSize(font, size);
      if y < Margin + textHeight {
        done := done + [page];
        page := [];
        y := env.pageHeight - Margin;
      }
      page := page + [Run(text, Margin, y, font, size)];
      y := y - (textHeight + RunGap);
    }

    /** The `forEach` callback for one body line: a header, a wrapped paragraph or a blank line. */
    method DrawLine(line: string)
      modifies this
      ensures State() == LayoutLine(env, old(State()), line)
    {
      if StartsWith(line, "#") {
        var level: int := Count(line, '#');
        var headerText := Trim(line[level..]);
        DrawText(headerText, TimesRomanBold, 26 - level * 4);
      } else if Trim(line) != "" {
        DrawParagraph(line);
      } else {
        y := y - BlankLineGap;
      }
    }

    /** One wrapped line drawn: the state advances by one more line of the paragraph. */
    method DrawWrapped(ghost start: Cursor, ghost drawn: seq<string>, text: string)
      requires State() == DrawAll(env, start, drawn, TimesRoman, FontSize)
      modifies this
      ensures State() == DrawAll(env, start, drawn + [text], TimesRoman, FontSize)
    {
      DrawAllAppend(env, start, drawn, text, TimesRoman, FontSize);
      DrawText(text, TimesRoman, FontSize);
    }

    /** The word-wrap loop for one paragraph line. */
    method DrawParagraph(line: string)
      modifies this
      ensures State() == DrawAll(env, old(State()), Wrap(env, Split(line, ' ')), TimesRoman, FontSize)
    {
      ghost var start := State();
      ghost var drawn: seq<string> := [];
      var words := Split(line, ' ');
      var currentLine := "";
      for i := 0 to |words|
        invariant State() == DrawAll(env, start, drawn, TimesRoman, FontSize)
        invariant drawn + WrapFrom(env, currentLine, words[i..]) == Wrap(env, words)
      {
        var word := words[i];
        WrapAdvance(env, drawn, currentLine, words, i, Wrap(env, words));
        var testLine := if |currentLine| > 0 then currentLine + " " + word else word;
        if env.widthOfTextAtSize(TimesRoman, testLine, FontSize) < env.pageWidth - Margin * 2.0 {
          currentLine := testLine;
        } else {
          DrawWrapped(start, drawn, currentLine);
          drawn := drawn + [currentLine];
          currentLine := word;
        }
      }
      WrapFinish(env, drawn, currentLine, words, Wrap(env, words));
      if currentLine != "" {
        DrawWrapped(start, drawn, currentLine);
      }
    }
  }

  /** `createPdf(title, content)`: the document laid out line by line, then handed to pdf-lib. */
  method CreatePdf(env: Env, render: seq<Page> -> Result<Bytes, string>, title: string, content: string)
    returns (pdfBytes: Result<Bytes, string>)
    ensures pdfBytes == render(Pages(LayoutDocument(env, title, content)))
  {
    var layout := new PdfLayout(env);
    layout.DrawText(title, TimesRomanBold, TitleSize);
    layout.y := layout.y - TitleGap;
    var lines := Split(content, '\n');
    for i := 0 to |lines|
      invariant layout.env == env
      invariant layout.State() == LayoutLines(env, AfterTitle(env, title), lines[..i])
    {
      layout.DrawLine(lines[i]);
      assert lines[..i + 1][..i] == lines[..i];
    }
    assert lines[..|lines|] == lines;
    pdfBytes := render(Pages(layout.State()));
  }

  /** The file name `title.replace(/ /g, '_')`. */
  function DownloadName(title: string): (name: string)
    ensures |name| == |title| && ' ' !in name
    ensures forall i :: 0 <= i < |title| ==> name[i] == (if title[i] == ' ' then '_' else title[i])
  {
    ReplaceAll(title, ' ', '_')
  }

  /** Sanitising a sanitised name changes nothing. */
  lemma DownloadNameIdempotent(title: string)
    ensures DownloadName(DownloadName(title)) == DownloadName(title)
  {
  }

  /** The contents JSZip stores for one file. */
  datatype Entry = TextEntry(text: string) | PdfEntry(bytes: Bytes)

  /** The Blob handed to `window.saveAs`. */
  datatype Blob = TextBlob(text: string) | PdfBlob(bytes: Bytes) | ZipBlob(files: map<string, Entry>)

  /** One `window.saveAs(blob, fileName)`. */
  datatype Download = Download(fileName: string, blob: Blob)

  /** `exportAsPdf`: the rendered document saved as the sanitised title with `.pdf`; a failure of
      `createPdf` rejects the export and nothing is saved. */
  method ExportAsPdf(env: Env, render: seq<Page> -> Result<Bytes, string>, title: string, content: string)
    returns (r: Result<Download, string>)
    ensures var pdf := render(Pages(LayoutDocument(env, title, content)));
            && (pdf.Failure? ==> r == Failure(pdf.error))
            && (pdf.Success? ==> r == Success(Download(DownloadName(title) + ".pdf", PdfBlob(pdf.value))))
  {
    var pdfBytes := CreatePdf(env, render, title, content);
    if pdfBytes.Failure? {
      return Failure(pdfBytes.error);
    }
    r := Success(Download(DownloadName(title) + ".pdf", PdfBlob(pdfBytes.value)));
  }

  /** `exportAsTxt`: the content verbatim under the sanitised title with `.txt`. */
  function ExportAsTxt(title: string, content: string): (d: Download)
    ensures d.blob == TextBlob(content)
    ensures d.fileName == DownloadName(title) + ".txt"
    ensures |d.fileName| == |title| + 4 && d.fileName[|title|..] == ".txt" && ' ' !in d.fileName
  {
    Download(DownloadName(title) + ".txt", TextBlob(content))
  }

  /** A JSZip object: its files by name. */
  class Zip {
    var files: map<string, Entry>

    constructor ()
      ensures files == map[]
    {
      files := map[];
    }

    /** `zip.file(name, data)`: adds the file, replacing one of the same name. */
    method File(name: string, data: Entry)
      modifies this
      ensures files == old(files)[name := data]
    {
      files := files[name := data];
    }
  }

  /** The archive's file name: a fixed product tag, the sanitised title and `.zip`. */
  function ArchiveName(title: string): (name: string)
    ensures StartsWith(name, "BookMind.ai_") && name[12..] == DownloadName(title) + ".zip"
  {
    "BookMind.ai_" + DownloadName(title) + ".zip"
  }

  /** The archive's files: exactly two, the text under the raw title with `.txt`, verbatim, and the
      rendered document under the raw title with `.pdf`. */
  function ArchiveFiles(title: string, content: string, pdf: Bytes): (files: map<string, Entry>)
    ensures files.Keys == {title + ".txt", title + ".pdf"} && |files| == 2
    ensures files[title + ".txt"] == TextEntry(content) && files[title + ".pdf"] == PdfEntry(pdf)
  {
    assert (title + ".txt")[|title| + 1] == 't' != (title + ".pdf")[|title| + 1];
    map[title + ".txt" := TextEntry(content), title + ".pdf" := PdfEntry(pdf)]
  }

  /** `exportAsZip`: both files in one archive.  There is no fallback: when `createPdf` fails, the
      export is rejected and no archive is saved. */
  method ExportAsZip(env: Env, render: seq<Page> -> Result<Bytes, string>, title: string, content: string)
    returns (r: Result<Download, string>)
    ensures var pdf := render(Pages(LayoutDocument(env, title, content)));
            && (pdf.Failure? ==> r == Failure(pdf.error))
            && (pdf.Success? ==> r == Success(Download(ArchiveName(title), ZipBlob(ArchiveFiles(title, content, pdf.value)))))
  {
    var zip := new Zip();
    zip.File(title + ".txt", TextEntry(content));
    var pdfBytes := CreatePdf(env, render, title, content);
    if pdfBytes.Failure? {
      return Failure(pdfBytes.error);
    }
    zip.File(title + ".pdf", PdfEntry(pdfBytes.value));
    r := Success(Download(ArchiveName(title), ZipBlob(zip.files)));
  }
}
