/**
 * What the layout of `createPdf` guarantees: the run drawn by each step and the page-break
 * rule, that pages are only appended to, that the runs of the document are exactly the title,
 * the header texts and the wrapped paragraph lines in body order, where every run is placed,
 * and the width bound and word coverage of the greedy wrap.
 */
module LayoutProperties {
  import opened Strings
  import opened Sequences
  import opened Layout

  /** All runs of the document in drawing order, page after page. */
  function Runs(c: Cursor): seq<Run>
  {
    Flatten(Pages(c))
  }

  /* ---------------------------------------------------------------- one draw */

  /** One `drawText`: a page is added exactly when `y < margin + textHeight`; the run lands at the
      top of the new page or at `y`, at `x = margin`; the cursor then drops by `textHeight + 5`. */
  lemma DrawStep(env: Env, c: Cursor, text: string, font: Font, size: int)
    ensures var h := env.heightAtSize(font, size);
            var breaks := c.y < Margin + h;
            var at := if breaks then Top(env) else c.y;
            var d := Draw(env, c, text, font, size);
            && |Pages(d)| == |Pages(c)| + (if breaks then 1 else 0)
            && Runs(d) == Runs(c) + [Run(text, Margin, at, font, size)]
            && d.y == at - (h + RunGap)
  {
    var h := env.heightAtSize(font, size);
    var d := Draw(env, c, text, font, size);
    if c.y < Margin + h {
      var r := Run(text, Margin, Top(env), font, size);
      assert d == Cursor(Top(env) - (h + RunGap), c.done + [c.current], [r]);
      assert Pages(d) == Pages(c) + [[r]];
      FlattenAppend(Pages(c), [r]);
    } else {
      var r := Run(text, Margin, c.y, font, size);
      FlattenAppend(c.done, c.current + [r]);
      FlattenAppend(c.done, c.current);
    }
  }

  /** A blank body line only lowers the cursor by 12: no run, no page. */
  lemma BlankLineOnlyMovesCursor(env: Env, c: Cursor, line: string)
    requires Classify(line).Blank?
    ensures LayoutLine(env, c, line) == Cursor(c.y - BlankLineGap, c.done, c.current)
  {
  }

  /* ---------------------------------------------------------------- pages only grow */

  /** `after` extends `before`: at least as many pages, the earlier pages unchanged, and the
      page that was current only added to. */
  ghost predicate Grows(before: seq<Page>, after: seq<Page>)
  {
    0 < |before| <= |after|
    && before[..|before| - 1] == after[..|before| - 1]
    && before[|before| - 1] <= after[|before| - 1]
  }

  lemma GrowsTransitive(a: seq<Page>, b: seq<Page>, c: seq<Page>)
    requires Grows(a, b) && Grows(b, c)
    ensures Grows(a, c)
  {
    assert a[..|a| - 1] == b[..|b| - 1][..|a| - 1];
    assert b[..|b| - 1][..|a| - 1] == c[..|b| - 1][..|a| - 1];
    assert c[..|b| - 1][..|a| - 1] == c[..|a| - 1];
    if |a| < |b| {
      assert b[|a| - 1] == b[..|b| - 1][|a| - 1];
    }
  }

  lemma DrawGrows(env: Env, c: Cursor, text: string, font: Font, size: int)
    ensures Grows(Pages(c), Pages(Draw(env, c, text, font, size)))
  {
    var d := Draw(env, c, text, font, size);
    assert Pages(c)[..|Pages(c)| - 1] == c.done;
    if c.y < Margin + env.heightAtSize(font, size) {
      assert Pages(d)[..|Pages(c)| - 1] == c.done;
      assert Pages(d)[|Pages(c)| - 1] == c.current;
    }
  }

  lemma {:induction false} DrawAllGrows(env: Env, c: Cursor, texts: seq<string>, font: Font, size: int)
    ensures Grows(Pages(c), Pages(DrawAll(env, c, texts, font, size)))
  {
    if texts != [] {
      var mid := DrawAll(env, c, texts[..|texts| - 1], font, size);
      DrawAllGrows(env, c, texts[..|texts| - 1], font, size);
      DrawGrows(env, mid, texts[|texts| - 1], font, size);
      GrowsTransitive(Pages(c), Pages(mid), Pages(DrawAll(env, c, texts, font, size)));
    } else {
      assert Pages(c)[|Pages(c)| - 1] <= Pages(c)[|Pages(c)| - 1];
    }
  }

  lemma LayoutLineGrows(env: Env, c: Cursor, line: string)
    ensures Grows(Pages(c), Pages(LayoutLine(env, c, line)))
  {
    match Classify(line)
    case Header(text, level) => DrawGrows(env, c, text, TimesRomanBold, HeaderSize(level));
    case Paragraph(words) => DrawAllGrows(env, c, Wrap(env, words), TimesRoman, FontSize);
    case Blank => assert Pages(LayoutLine(env, c, line)) == Pages(c);
  }

  lemma {:induction false} LayoutLinesGrows(env: Env, c: Cursor, lines: seq<string>)
    ensures Grows(Pages(c), Pages(LayoutLines(env, c, lines)))
  {
    if lines == [] {
      assert Pages(c)[|Pages(c)| - 1] <= Pages(c)[|Pages(c)| - 1];
    } else {
      var mid := LayoutLines(env, c, lines[..|lines| - 1]);
      LayoutLinesGrows(env, c, lines[..|lines| - 1]);
      LayoutLineGrows(env, mid, lines[|lines| - 1]);
      GrowsTransitive(Pages(c), Pages(mid), Pages(LayoutLines(env, c, lines)));
    }
  }

  /** Laying out more lines continues from where the first lines left off. */
  lemma {:induction false} LayoutLinesAppend(env: Env, c: Cursor, xs: seq<string>, ys: seq<string>)
    ensures LayoutLines(env, c, xs + ys) == LayoutLines(env, LayoutLines(env, c, xs), ys)
  {
    if ys == [] {
      assert xs + ys == xs;
    } else {
      assert (xs + ys)[..|xs + ys| - 1] == xs + ys[..|ys| - 1];
      assert (xs + ys)[|xs + ys| - 1] == ys[|ys| - 1];
      LayoutLinesAppend(env, c, xs, ys[..|ys| - 1]);
    }
  }

  /** Appending body text after a newline leaves every earlier page as it was and only adds to the
      last one or after it; in particular the page count never decreases as the body grows. */
  lemma LongerBodyExtendsDocument(env: Env, title: string, body: string, more: string)
    ensures Grows(Pages(LayoutDocument(env, title, body)), Pages(LayoutDocument(env, title, body + "\n" + more)))
    ensures |Pages(LayoutDocument(env, title, body))| <= |Pages(LayoutDocument(env, title, body + "\n" + more))|
  {
    var c := AfterTitle(env, title);
    SplitAround(body, more, '\n');
    assert body + "\n" + more == body + ['\n'] + more;
    LayoutLinesAppend(env, c, Split(body, '\n'), Split(more, '\n'));
    LayoutLinesGrows(env, LayoutLines(env, c, Split(body, '\n')), Split(more, '\n'));
  }

  /** The document starts with exactly one page.  The title is the first run at the top of page
      one when its height fits above the bottom margin; otherwise page one is left empty and the
      title opens page two.  Either way the cursor then sits the title's height, the run gap and
      the 20 extra units below the top line. */
  lemma TitleOnFirstPage(env: Env, title: string)
    ensures |Pages(Start(env))| == 1
    ensures var r := Run(title, Margin, Top(env), TimesRomanBold, TitleSize);
            Pages(AfterTitle(env, title))
            == if Margin + env.heightAtSize(TimesRomanBold, TitleSize) <= Top(env) then [[r]] else [[], [r]]
    ensures AfterTitle(env, title).y == Top(env) - (env.heightAtSize(TimesRomanBold, TitleSize) + RunGap) - TitleGap
  {
    var h := env.heightAtSize(TimesRomanBold, TitleSize);
    var r := Run(title, Margin, Top(env), TimesRomanBold, TitleSize);
    var d := Draw(env, Start(env), title, TimesRomanBold, TitleSize);
    if Margin + h <= Top(env) {
      assert d == Cursor(Top(env) - (h + RunGap), [], [] + [r]);
      assert Pages(AfterTitle(env, title)) == [] + [[r]];
    } else {
      var empty: Page := [];
      assert d == Cursor(Top(env) - (h + RunGap), [empty], [r]);
      assert Pages(AfterTitle(env, title)) == [empty] + [[r]];
    }
  }

  lemma StartHasNoRuns(env: Env)
    ensures Runs(Start(env)) == []
  {
    var empty: seq<Page> := [];
    assert Pages(Start(env)) == [[]];
    assert Flatten(Pages(Start(env))) == [] + Flatten(empty);
  }

  /* ---------------------------------------------------------------- content of the runs */

  /** The text, font and size of a run: what the layout decides apart from position. */
  datatype Styled = Styled(text: string, font: Font, size: int)

  function Styles(runs: seq<Run>): (r: seq<Styled>)
    ensures |r| == |runs|
  {
    if runs == [] then []
    else
      var last := runs[|runs| - 1];
      Styles(runs[..|runs| - 1]) + [Styled(last.text, last.font, last.size)]
  }

  function Uniform(texts: seq<string>, font: Font, size: int): seq<Styled>
  {
    if texts == [] then [] else Uniform(texts[..|texts| - 1], font, size) + [Styled(texts[|texts| - 1], font, size)]
  }

  /** What one body line contributes, whatever the page geometry. */
  function LineStyles(env: Env, line: string): seq<Styled>
  {
    match Classify(line)
    case Header(text, level) => [Styled(text, TimesRomanBold, HeaderSize(level))]
    case Paragraph(words) => Uniform(Wrap(env, words), TimesRoman, FontSize)
    case Blank => []
  }

  function BodyStyles(env: Env, lines: seq<string>): seq<Styled>
  {
    if lines == [] then [] else BodyStyles(env, lines[..|lines| - 1]) + LineStyles(env, lines[|lines| - 1])
  }

  lemma DrawStyles(env: Env, c: Cursor, text: string, font: Font, size: int)
    ensures Styles(Runs(Draw(env, c, text, font, size))) == Styles(Runs(c)) + [Styled(text, font, size)]
  {
    DrawStep(env, c, text, font, size);
    var rs := Runs(Draw(env, c, text, font, size));
    assert rs[..|rs| - 1] == Runs(c);
  }

  lemma {:induction false} DrawAllStyles(env: Env, c: Cursor, texts: seq<string>, font: Font, size: int)
    ensures Styles(Runs(DrawAll(env, c, texts, font, size))) == Styles(Runs(c)) + Uniform(texts, font, size)
  {
    if texts != [] {
      var init := texts[..|texts| - 1];
      DrawAllStyles(env, c, init, font, size);
      DrawStyles(env, DrawAll(env, c, init, font, size), texts[|texts| - 1], font, size);
    }
  }

  lemma LayoutLineStyles(env: Env, c: Cursor, line: string)
    ensures Styles(Runs(LayoutLine(env, c, line))) == Styles(Runs(c)) + LineStyles(env, line)
  {
    match Classify(line)
    case Header(text, level) => DrawStyles(env, c, text, TimesRomanBold, HeaderSize(level));
    case Paragraph(words) => DrawAllStyles(env, c, Wrap(env, words), TimesRoman, FontSize);
    case Blank =>
  }

  lemma {:induction false} LayoutLinesStyles(env: Env, c: Cursor, lines: seq<string>)
    ensures Styles(Runs(LayoutLines(env, c, lines))) == Styles(Runs(c)) + BodyStyles(env, lines)
  {
    if lines != [] {
      var init := lines[..|lines| - 1];
      LayoutLinesStyles(env, c, init);
      LayoutLineStyles(env, LayoutLines(env, c, init), lines[|lines| - 1]);
    }
  }

  /** Page breaks neither drop, duplicate nor reorder anything: the runs of the document, read page
      by page, are the title in bold at 24, then for each body line in order its header text in bold
      at `26 - 4 * level`, or its wrapped lines at 12, or nothing for a blank line. */
  lemma DocumentRuns(env: Env, title: string, content: string)
    ensures Styles(Runs(LayoutDocument(env, title, content)))
         == [Styled(title, TimesRomanBold, TitleSize)] + BodyStyles(env, Split(content, '\n'))
  {
    StartHasNoRuns(env);
    DrawStyles(env, Start(env), title, TimesRomanBold, TitleSize);
    LayoutLinesStyles(env, AfterTitle(env, title), Split(content, '\n'));
  }

  /* ---------------------------------------------------------------- where runs are placed */

  /** The page can hold one run of any size `createPdf` draws below the title's 24: the text
      height fits between the bottom margin and the top line. */
  ghost predicate RoomForOneLine(env: Env)
  {
    forall f: Font, s: int :: s <= TitleSize ==> env.heightAtSize(f, s) <= env.pageHeight - 2.0 * Margin
  }

  /** Text of a non-negative size has a non-negative height. */
  ghost predicate NonNegativeHeights(env: Env)
  {
    forall f: Font, s: int :: 0 <= s ==> 0.0 <= env.heightAtSize(f, s)
  }

  /** Metrics proportional to the font size, as pdf-lib's standard fonts report them, meet both
      hypotheses on any page tall enough for one title line. */
  lemma ProportionalMetrics(env: Env, k: real)
    requires 0.0 <= k && k * (TitleSize as real) <= env.pageHeight - 2.0 * Margin
    requires forall f: Font, s: int :: env.heightAtSize(f, s) == k * (s as real)
    ensures RoomForOneLine(env) && NonNegativeHeights(env)
  {
    forall f: Font, s: int | s <= TitleSize
      ensures env.heightAtSize(f, s) <= env.pageHeight - 2.0 * Margin
    {
      assert k * (s as real) <= k * (TitleSize as real) by {
        assert k * ((TitleSize - s) as real) >= 0.0;
      }
    }
    forall f: Font, s: int | 0 <= s
      ensures 0.0 <= env.heightAtSize(f, s)
    {
      assert k * (s as real) >= 0.0;
    }
  }

  /** Every run sits at the left margin, and with room for a line no run is lower than
      `margin + textHeight`. */
  ghost predicate WellPlaced(env: Env, c: Cursor)
  {
    var rs := Runs(c);
    && (forall i :: 0 <= i < |rs| ==> rs[i].x == Margin)
    && (RoomForOneLine(env) ==>
          forall i :: 0 <= i < |rs| ==> Margin + env.heightAtSize(rs[i].font, rs[i].size) <= rs[i].y)
  }

  /** Neither the cursor nor any run is above the top line `height - margin`. */
  ghost predicate UnderTop(env: Env, c: Cursor)
  {
    var rs := Runs(c);
    c.y <= Top(env) && forall i :: 0 <= i < |rs| ==> rs[i].y <= Top(env)
  }

  lemma DrawWellPlaced(env: Env, c: Cursor, text: string, font: Font, size: int)
    requires size <= TitleSize
    requires WellPlaced(env, c)
    ensures WellPlaced(env, Draw(env, c, text, font, size))
  {
    DrawStep(env, c, text, font, size);
  }

  lemma {:induction false} DrawAllWellPlaced(env: Env, c: Cursor, texts: seq<string>, font: Font, size: int)
    requires size <= TitleSize
    requires WellPlaced(env, c)
    ensures WellPlaced(env, DrawAll(env, c, texts, font, size))
  {
    if texts != [] {
      var init := texts[..|texts| - 1];
      DrawAllWellPlaced(env, c, init, font, size);
      DrawWellPlaced(env, DrawAll(env, c, init, font, size), texts[|texts| - 1], font, size);
    }
  }

  lemma LayoutLineWellPlaced(env: Env, c: Cursor, line: string)
    requires WellPlaced(env, c)
    ensures WellPlaced(env, LayoutLine(env, c, line))
  {
    match Classify(line)
    case Header(text, level) => DrawWellPlaced(env, c, text, TimesRomanBold, HeaderSize(level));
    case Paragraph(words) => DrawAllWellPlaced(env, c, Wrap(env, words), TimesRoman, FontSize);
    case Blank => assert Runs(LayoutLine(env, c, line)) == Runs(c);
  }

  lemma {:induction false} LayoutLinesWellPlaced(env: Env, c: Cursor, lines: seq<string>)
    requires WellPlaced(env, c)
    ensures WellPlaced(env, LayoutLines(env, c, lines))
  {
    if lines != [] {
      var init := lines[..|lines| - 1];
      LayoutLinesWellPlaced(env, c, init);
      LayoutLineWellPlaced(env, LayoutLines(env, c, init), lines[|lines| - 1]);
    }
  }

  /** The cursor bound: every run of the document is at `x = margin`, and when the page has room for
      one line of each size drawn, at `y >= margin + textHeight`.  The code itself never checks the
      page geometry. */
  lemma DocumentPlacement(env: Env, title: string, content: string)
    ensures var rs := Runs(LayoutDocument(env, title, content));
            forall i :: 0 <= i < |rs| ==>
              rs[i].x == Margin
              && (RoomForOneLine(env) ==> Margin + env.heightAtSize(rs[i].font, rs[i].size) <= rs[i].y)
  {
    var s := Start(env);
    StartHasNoRuns(env);
    DrawWellPlaced(env, s, title, TimesRomanBold, TitleSize);
    var t := AfterTitle(env, title);
    assert Runs(t) == Runs(Draw(env, s, title, TimesRomanBold, TitleSize));
    LayoutLinesWellPlaced(env, t, Split(content, '\n'));
  }

  lemma DrawUnderTop(env: Env, c: Cursor, text: string, font: Font, size: int)
    requires NonNegativeHeights(env) && 0 <= size
    requires UnderTop(env, c)
    ensures UnderTop(env, Draw(env, c, text, font, size))
  {
    DrawStep(env, c, text, font, size);
  }

  lemma {:induction false} DrawAllUnderTop(env: Env, c: Cursor, texts: seq<string>, font: Font, size: int)
    requires NonNegativeHeights(env) && 0 <= size
    requires UnderTop(env, c)
    ensures UnderTop(env, DrawAll(env, c, texts, font, size))
  {
    if texts != [] {
      var init := texts[..|texts| - 1];
      DrawAllUnderTop(env, c, init, font, size);
      DrawUnderTop(env, DrawAll(env, c, init, font, size), texts[|texts| - 1], font, size);
    }
  }

  /** A line that is not a header with more than six `#`, whose size `26 - 4 * level` would be negative. */
  predicate ShallowLine(line: string)
  {
    StartsWith(line, "#") ==> Count(line, '#') <= 6
  }

  lemma LayoutLineUnderTop(env: Env, c: Cursor, line: string)
    requires NonNegativeHeights(env) && ShallowLine(line)
    requires UnderTop(env, c)
    ensures UnderTop(env, LayoutLine(env, c, line))
  {
    match Classify(line)
    case Header(text, level) => DrawUnderTop(env, c, text, TimesRomanBold, HeaderSize(level));
    case Paragraph(words) => DrawAllUnderTop(env, c, Wrap(env, words), TimesRoman, FontSize);
    case Blank => assert Runs(LayoutLine(env, c, line)) == Runs(c);
  }

  lemma {:induction false} LayoutLinesUnderTop(env: Env, c: Cursor, lines: seq<string>)
    requires NonNegativeHeights(env) && forall i :: 0 <= i < |lines| ==> ShallowLine(lines[i])
    requires UnderTop(env, c)
    ensures UnderTop(env, LayoutLines(env, c, lines))
  {
    if lines != [] {
      var init := lines[..|lines| - 1];
      LayoutLinesUnderTop(env, c, init);
      LayoutLineUnderTop(env, LayoutLines(env, c, init), lines[|lines| - 1]);
    }
  }

  /** No run of the document is above the top line `height - margin`, when heights are non-negative
      and no header has more than six `#`: a deeper header has a negative size, and its negative
      height moves the cursor up. */
  lemma DocumentUnderTop(env: Env, title: string, content: string)
    requires NonNegativeHeights(env)
    requires forall i :: 0 <= i < |Split(content, '\n')| ==> ShallowLine(Split(content, '\n')[i])
    ensures var rs := Runs(LayoutDocument(env, title, content));
            forall i :: 0 <= i < |rs| ==> rs[i].y <= Top(env)
  {
    var s := Start(env);
    StartHasNoRuns(env);
    DrawUnderTop(env, s, title, TimesRomanBold, TitleSize);
    var t := AfterTitle(env, title);
    assert Runs(t) == Runs(Draw(env, s, title, TimesRomanBold, TitleSize));
    LayoutLinesUnderTop(env, t, Split(content, '\n'));
  }

  /* ---------------------------------------------------------------- greedy wrap */

  /** Every line the wrap loop draws was measured narrower than `width - 2 * margin` when it was
      adopted, or is one word placed alone after a break, or is the line under construction drawn
      empty-handed before the first word. */
  lemma {:induction false} WrapFromBound(env: Env, line: string, words: seq<string>, i: nat)
    requires i < |WrapFrom(env, line, words)|
    ensures var l := WrapFrom(env, line, words)[i];
            FitsLine(env, l) || l in words || (i == 0 && l == line)
    decreases |words|
  {
    if words != [] {
      var candidate := Extend(line, words[0]);
      var rest := words[1..];
      assert words == [words[0]] + rest;
      if FitsLine(env, candidate) {
        WrapFromBound(env, candidate, rest, i);
      } else if i > 0 {
        WrapFromBound(env, words[0], rest, i - 1);
      }
    }
  }

  /** The wrap width bound for a paragraph line: only a single overlong word, which contains no
      space, or an empty first line drawn because the very first word overflowed, can be wider. */
  lemma ParagraphWidthBound(env: Env, line: string)
    requires Classify(line).Paragraph?
    ensures var words := Split(line, ' ');
            var ls := Wrap(env, words);
            forall i :: 0 <= i < |ls| ==>
              FitsLine(env, ls[i]) || (ls[i] in words && ' ' !in ls[i]) || (i == 0 && ls[i] == "")
  {
    var words := Split(line, ' ');
    var ls := Wrap(env, words);
    SplitPartsLackSeparator(line, ' ');
    forall i | 0 <= i < |ls| && !FitsLine(env, ls[i]) && !(i == 0 && ls[i] == "")
      ensures ls[i] in words && ' ' !in ls[i]
    {
      WrapFromBound(env, "", words, i);
      var k :| 0 <= k < |words| && words[k] == ls[i];
    }
  }

  /** When the very first word already overflows, the loop draws the still-empty line first. */
  lemma FirstWordOverflowDrawsEmptyLine(env: Env, words: seq<string>)
    requires words != [] && !FitsLine(env, words[0])
    ensures |Wrap(env, words)| >= 1 && Wrap(env, words)[0] == ""
  {
  }

  /** Leading empty words vanish from a line: `currentLine` is replaced, not extended, while empty. */
  function DropLeadingEmpty(words: seq<string>): (r: seq<string>)
    ensures r == [] || r[0] != ""
  {
    if words != [] && words[0] == "" then DropLeadingEmpty(words[1..]) else words
  }

  /** The line built from a group of consecutive words: their `' '`-join, leading empty words aside. */
  function JoinWords(words: seq<string>): string
  {
    Join(DropLeadingEmpty(words), " ")
  }

  lemma {:induction false} DropLeadingEmptyAppend(words: seq<string>, w: string)
    ensures DropLeadingEmpty(words + [w])
         == if DropLeadingEmpty(words) == [] then DropLeadingEmpty([w]) else DropLeadingEmpty(words) + [w]
  {
    if words == [] {
      assert words + [w] == [w];
    } else if words[0] == "" {
      assert (words + [w])[1..] == words[1..] + [w];
      DropLeadingEmptyAppend(words[1..], w);
    }
  }

  lemma {:induction false} DropLeadingEmptyAllEmpty(words: seq<string>)
    requires DropLeadingEmpty(words) == []
    ensures forall i :: 0 <= i < |words| ==> words[i] == ""
  {
    if words != [] {
      DropLeadingEmptyAllEmpty(words[1..]);
      assert forall i :: 1 <= i < |words| ==> words[i] == words[1..][i - 1];
    }
  }

  lemma {:induction false} JoinAppend(parts: seq<string>, w: string, sep: string)
    requires parts != []
    ensures Join(parts + [w], sep) == Join(parts, sep) + sep + w
  {
    if |parts| > 1 {
      assert (parts + [w])[1..] == parts[1..] + [w];
      JoinAppend(parts[1..], w, sep);
    }
  }

  /** Extending the line by one word is the join of the group with that word added. */
  lemma JoinWordsAppend(words: seq<string>, w: string)
    ensures JoinWords(words + [w]) == Extend(JoinWords(words), w)
  {
    DropLeadingEmptyAppend(words, w);
    var d := DropLeadingEmpty(words);
    if d != [] {
      JoinAppend(d, w, " ");
      assert d[0] <= Join(d, " ");
    }
  }

  /** The words each drawn line was built from: a ghost companion of `WrapFrom` that follows the same
      decisions and records `group`, the words of the line under construction. */
  ghost function GroupsFrom(env: Env, line: string, group: seq<string>, words: seq<string>): seq<seq<string>>
    decreases |words|
  {
    if words == [] then (if line != "" then [group] else [])
    else
      var candidate := Extend(line, words[0]);
      if FitsLine(env, candidate) then GroupsFrom(env, candidate, group + [words[0]], words[1..])
      else [group] + GroupsFrom(env, words[0], [words[0]], words[1..])
  }

  lemma {:induction false} WrapFromGroups(env: Env, line: string, group: seq<string>, words: seq<string>)
    requires line == JoinWords(group)
    ensures var ls := WrapFrom(env, line, words);
            var gs := GroupsFrom(env, line, group, words);
            var all := group + words;
            var f := Flatten(gs);
            && |gs| == |ls|
            && (forall i :: 0 <= i < |gs| ==> ls[i] == JoinWords(gs[i]))
            && (forall i :: 0 <= i < |gs| ==> gs[i] != [] || (i == 0 && group == []))
            && |f| <= |all| && f == all[..|f|]
            && (forall j :: |f| <= j < |all| ==> all[j] == "")
    decreases |words|
  {
    if words == [] {
      if line == "" {
        DropLeadingEmptyAllEmpty(group);
      } else {
        assert Flatten([group]) == group + Flatten([]);
      }
      assert group + words == group;
    } else {
      var w := words[0];
      var candidate := Extend(line, w);
      if FitsLine(env, candidate) {
        JoinWordsAppend(group, w);
        WrapFromGroups(env, candidate, group + [w], words[1..]);
        assert group + [w] + words[1..] == group + words;
      } else {
        assert JoinWords([w]) == w by {
          if w == "" { assert DropLeadingEmpty([w]) == DropLeadingEmpty([]); }
        }
        WrapFromGroups(env, w, [w], words[1..]);
        var gs' := GroupsFrom(env, w, [w], words[1..]);
        assert ([group] + gs')[1..] == gs';
        assert [w] + words[1..] == words;
        var f' := Flatten(gs');
        assert Flatten([group] + gs') == group + f';
        assert (group + words)[..|group| + |f'|] == group + words[..|f'|];
      }
    }
  }

  /** The groups behind the lines of a paragraph's wrap. */
  ghost function Groups(env: Env, words: seq<string>): seq<seq<string>>
  {
    GroupsFrom(env, "", [], words)
  }

  /** Word coverage and order: the wrapped lines are built from consecutive groups of the words, each
      word in exactly one group and in the original order; every drawn line is the `' '`-join of its
      group (leading empty words aside); only the first group can be empty (the empty line drawn when
      the first word overflows); and the words left over are empty ones that formed a final line of
      nothing, which is not drawn. */
  lemma WrapCoverage(env: Env, words: seq<string>)
    ensures var ls := Wrap(env, words);
            var gs := Groups(env, words);
            var f := Flatten(gs);
            && |gs| == |ls|
            && (forall i :: 0 <= i < |gs| ==> ls[i] == JoinWords(gs[i]))
            && (forall i :: 0 < i < |gs| ==> gs[i] != [])
            && |f| <= |words| && f == words[..|f|]
            && (forall j :: |f| <= j < |words| ==> words[j] == "")
  {
    WrapFromGroups(env, "", [], words);
    assert [] + words == words;
  }
}
