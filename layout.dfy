/**
 * The layout performed by `createPdf`, as pure functions: a cursor holding the vertical
 * position `y`, the pages already finished and the page being drawn on; one `Draw` per
 * `drawText` call; greedy word wrap of paragraphs; and the header / paragraph / blank
 * dispatch over the body lines.  Font metrics and the page size come from pdf-lib and
 * are parameters here (`Env`).
 */
module Layout {
  import opened Strings

  datatype Font = TimesRoman | TimesRomanBold

  /** One text run placed on a page: what `page.drawText` receives (the colour is fixed). */
  datatype Run = Run(text: string, x: real, y: real, font: Font, size: int)

  type Page = seq<Run>

  /** What pdf-lib supplies: the size of a default page and the metrics of the two embedded fonts. */
  datatype Env = Env(
    pageWidth: real,
    pageHeight: real,
    widthOfTextAtSize: (Font, string, int) -> real,
    heightAtSize: (Font, int) -> real)

  const Margin: real := 50.0
  const FontSize: int := 12
  const TitleSize: int := 24
  /** Space left below every drawn run, on top of the run's own height. */
  const RunGap: real := 5.0
  /** Extra space below the title. */
  const TitleGap: real := 20.0
  /** Space taken by a blank body line (`y -= fontSize`). */
  const BlankLineGap: real := 12.0

  /** The layout state of `createPdf`: the cursor `y`, the earlier pages, and `page`. */
  datatype Cursor = Cursor(y: real, done: seq<Page>, current: Page)

  /** The pages of the document, the current one last. */
  function Pages(c: Cursor): (pages: seq<Page>)
    ensures |pages| >= 1 && pages[|pages| - 1] == c.current
  {
    c.done + [c.current]
  }

  /** The first line position of every page. */
  function Top(env: Env): real
  {
    env.pageHeight - Margin
  }

  /** A fresh document with its single empty page, cursor at the top. */
  function Start(env: Env): Cursor
  {
    Cursor(Top(env), [], [])
  }

  /** `drawText`: the page-break test `y < margin + textHeight`, the run at `(margin, y)`,
      then `y -= textHeight + 5`. */
  function Draw(env: Env, c: Cursor, text: string, font: Font, size: int): (d: Cursor)
    ensures var h := env.heightAtSize(font, size);
            var breaks := c.y < Margin + h;
            && |d.done| == |c.done| + (if breaks then 1 else 0)
            && d.done[..|c.done|] == c.done
            && d.current != []
            && d.current[|d.current| - 1] == Run(text, Margin, d.y + (h + RunGap), font, size)
            && (breaks ==> |d.current| == 1 && d.current[0].y == Top(env))
            && (!breaks ==> d.current[..|d.current| - 1] == c.current && d.current[|d.current| - 1].y == c.y)
  {
    var h := env.heightAtSize(font, size);
    var at := if c.y < Margin + h then Cursor(Top(env), c.done + [c.current], []) else c;
    Cursor(at.y - (h + RunGap), at.done, at.current + [Run(text, Margin, at.y, font, size)])
  }

  /** Drawing several texts one after the other in the same font and size. */
  function DrawAll(env: Env, c: Cursor, texts: seq<string>, font: Font, size: int): Cursor
    decreases |texts|
  {
    if texts == [] then c
    else Draw(env, DrawAll(env, c, texts[..|texts| - 1], font, size), texts[|texts| - 1], font, size)
  }

  lemma DrawAllAppend(env: Env, c: Cursor, texts: seq<string>, text: string, font: Font, size: int)
    ensures DrawAll(env, c, texts + [text], font, size) == Draw(env, DrawAll(env, c, texts, font, size), text, font, size)
  {
    assert (texts + [text])[..|texts|] == texts;
  }

  /** The usable width `width - margin * 2`. */
  function WrapWidth(env: Env): real
  {
    env.pageWidth - Margin * 2.0
  }

  /** The wrap test: the candidate line measured in the regular font at size 12. */
  predicate FitsLine(env: Env, text: string)
  {
    env.widthOfTextAtSize(TimesRoman, text, FontSize) < WrapWidth(env)
  }

  /** The candidate line `currentLine.length > 0 ? currentLine + ' ' + word : word`. */
  function Extend(line: string, word: string): string
  {
    if |line| > 0 then line + " " + word else word
  }

  /** The lines the greedy wrap loop draws, from the point where the line under construction is
      `line` and `words` are still to come; the last line is drawn only when it is non-empty. */
  function WrapFrom(env: Env, line: string, words: seq<string>): (lines: seq<string>)
    ensures |lines| <= |words| + 1
    decreases |words|
  {
    if words == [] then (if line != "" then [line] else [])
    else
      var candidate := Extend(line, words[0]);
      if FitsLine(env, candidate) then WrapFrom(env, candidate, words[1..])
      else [line] + WrapFrom(env, words[0], words[1..])
  }

  /** One turn of the wrap loop: adopt the candidate, or draw the line and restart from the word. */
  lemma WrapFromStep(env: Env, line: string, words: seq<string>, i: nat)
    requires i < |words|
    ensures var candidate := Extend(line, words[i]);
            WrapFrom(env, line, words[i..])
            == if FitsLine(env, candidate) then WrapFrom(env, candidate, words[i + 1..])
               else [line] + WrapFrom(env, words[i], words[i + 1..])
  {
    assert words[i..][0] == words[i] && words[i..][1..] == words[i + 1..];
  }

  /** The loop invariant `drawn ++ lines still to come == all lines` survives one turn. */
  lemma WrapAdvance(env: Env, drawn: seq<string>, line: string, words: seq<string>, i: nat, all: seq<string>)
    requires i < |words|
    requires drawn + WrapFrom(env, line, words[i..]) == all
    ensures FitsLine(env, Extend(line, words[i])) ==>
              drawn + WrapFrom(env, Extend(line, words[i]), words[i + 1..]) == all
    ensures !FitsLine(env, Extend(line, words[i])) ==>
              (drawn + [line]) + WrapFrom(env, words[i], words[i + 1..]) == all
  {
    WrapFromStep(env, line, words, i);
    if !FitsLine(env, Extend(line, words[i])) {
      assert drawn + ([line] + WrapFrom(env, words[i], words[i + 1..])) == all;
    }
  }

  /** When the words run out, only a non-empty last line is still to be drawn. */
  lemma WrapFinish(env: Env, drawn: seq<string>, line: string, words: seq<string>, all: seq<string>)
    requires drawn + WrapFrom(env, line, words[|words|..]) == all
    ensures line != "" ==> drawn + [line] == all
    ensures line == "" ==> drawn == all
  {
    assert words[|words|..] == [];
  }

  /** The lines drawn for a paragraph with these words. */
  function Wrap(env: Env, words: seq<string>): (lines: seq<string>)
    ensures |lines| <= |words| + 1
    ensures words == [] ==> lines == []
  {
    WrapFrom(env, "", words)
  }

  datatype LineKind = Header(text: string, level: nat) | Paragraph(words: seq<string>) | Blank

  /** `26 - level * 4`, without a lower bound. */
  function HeaderSize(level: int): int
  {
    26 - level * 4
  }

  /** The three-way dispatch on a body line: a header exactly when it starts with '#', a blank
      line exactly when it does not and is all whitespace, else a paragraph of its ' '-separated
      words.  The header level counts every '#' of the line, so it is at least 1. */
  function Classify(line: string): (k: LineKind)
    ensures k.Header? <==> StartsWith(line, "#")
    ensures k.Header? ==> k.level == Count(line, '#') && k.level >= 1 && k.text == Trim(line[k.level..])
    ensures k.Blank? <==> !StartsWith(line, "#") && AllWhitespace(line)
    ensures k.Paragraph? ==> k.words == Split(line, ' ')
  {
    if StartsWith(line, "#") then
      assert line[0] == '#';
      var level := Count(line, '#');
      Header(Trim(line[level..]), level)
    else
      TrimEmptyIffAllWhitespace(line);
      if Trim(line) != "" then Paragraph(Split(line, ' '))
      else Blank
  }

  function LayoutLine(env: Env, c: Cursor, line: string): Cursor
  {
    match Classify(line)
    case Header(text, level) => Draw(env, c, text, TimesRomanBold, HeaderSize(level))
    case Paragraph(words) => DrawAll(env, c, Wrap(env, words), TimesRoman, FontSize)
    case Blank => c.(y := c.y - BlankLineGap)
  }

  function LayoutLines(env: Env, c: Cursor, lines: seq<string>): Cursor
    decreases |lines|
  {
    if lines == [] then c
    else LayoutLine(env, LayoutLines(env, c, lines[..|lines| - 1]), lines[|lines| - 1])
  }

  /** The state after the title: drawn in bold at size 24, then 20 more units of space. */
  function AfterTitle(env: Env, title: string): Cursor
  {
    var c := Draw(env, Start(env), title, TimesRomanBold, TitleSize);
    c.(y := c.y - TitleGap)
  }

  /** The whole layout of `createPdf(title, content)`. */
  function LayoutDocument(env: Env, title: string, content: string): Cursor
  {
    LayoutLines(env, AfterTitle(env, title), Split(content, '\n'))
  }
}
