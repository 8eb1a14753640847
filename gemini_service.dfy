/**
 * The deterministic parts of the Gemini service: post-processing of the outline response and its
 * fixed fallback, the final-details block and the plan-based task of the book prompt, and the
 * string `generateBookContent` returns when generation fails.  The network calls are parameters:
 * a response is a `Result` whose failure stands for anything the `try` block throws.
 */
module GeminiService {
  import opened Wrappers
  import opened Strings
  import opened Sequences

  /** The outline returned by `generateBookOutline`. */
  datatype Outline = Outline(title: string, structure: string)

  /** `line.trim() !== ''`. */
  predicate NotBlank(line: string)
  {
    Trim(line) != ""
  }

  /** `toLowerCase` of a whole string, for the ASCII letters. */
  function ToLower(s: string): (r: string)
    ensures |r| == |s|
    ensures forall i :: 0 <= i < |s| ==> r[i] == ToLowerAscii(s[i])
  {
    if s == [] then [] else [ToLowerAscii(s[0])] + ToLower(s[1..])
  }

  /** `line.toLowerCase().startsWith('title:')`. */
  predicate IsTitleLine(line: string)
  {
    StartsWith(ToLower(line), "title:")
  }

  predicate NotTitle(line: string)
  {
    !IsTitleLine(line)
  }

  /** A line that ends up in the structure. */
  predicate StructureLine(line: string)
  {
    NotBlank(line) && NotTitle(line)
  }

  /** `titleLine.substring(titleLine.indexOf(':') + 1).trim()`. */
  function TitleText(line: string): string
  {
    Trim(line[IndexOf(line, ':') + 1..])
  }

  /** The response text after blank lines are dropped. */
  function NonBlankLines(text: string): seq<string>
  {
    Filter(Split(text, '\n'), NotBlank)
  }

  /** The post-processing of a successful outline response. */
  function ParseOutline(text: string, topic: string): Outline
  {
    var lines := NonBlankLines(text);
    var title := match Find(lines, IsTitleLine)
      case Some(titleLine) => TitleText(titleLine)
      case None => topic;
    Outline(title, Join(Filter(lines, NotTitle), "\n"))
  }

  /** The structure of the `catch` branch. */
  const FallbackStructure: string :=
    "Chapter 1: Introduction" + "\n" + "Chapter 2: The Core Idea" + "\n" + "Chapter 3: Practical Applications"
    + "\n" + "Chapter 4: Advanced Concepts" + "\n" + "Chapter 5: Conclusion"

  /** `generateBookOutline`: the parsed response, or the topic and the fixed five chapters when the
      request (or anything else in the `try` block) fails. */
  function GenerateBookOutline(response: Result<string, string>, topic: string): (o: Outline)
    ensures response.Failure? ==> o.title == topic && Split(o.structure, '\n') == FallbackChapterTitles
    ensures response.Success? ==> o == ParseOutline(response.value, topic)
  {
    match response
    case Success(text) =>
      ParseOutline(text, topic)
    case Failure(_) =>
      FallbackChapters();
      Outline(topic, FallbackStructure)
  }

  /** The fallback structure is five `Chapter k: ...` lines. */
  lemma FallbackChapters()
    ensures Split(FallbackStructure, '\n') == FallbackChapterTitles
  {
    FallbackJoin();
    FallbackTitlesSingleLine();
    SplitJoin(FallbackChapterTitles, '\n');
  }

  lemma FallbackTitlesSingleLine()
    ensures forall i :: 0 <= i < |FallbackChapterTitles| ==> '\n' !in FallbackChapterTitles[i]
  {
    var c := FallbackChapterTitles;
    assert '\n' !in c[0] && '\n' !in c[1] && '\n' !in c[2] && '\n' !in c[3] && '\n' !in c[4];
  }

  lemma FallbackJoin()
    ensures Join(FallbackChapterTitles, "\n") == FallbackStructure
  {
    var c := FallbackChapterTitles;
    assert c[4..] == [c[4]];
    assert c[3..][1..] == c[4..];
    assert c[2..][1..] == c[3..];
    assert c[1..][1..] == c[2..];
    assert Join(c[3..], "\n") == c[3] + "\n" + c[4];
    assert Join(c[2..], "\n") == c[2] + "\n" + c[3] + "\n" + c[4];
    assert Join(c[1..], "\n") == c[1] + "\n" + c[2] + "\n" + c[3] + "\n" + c[4];
  }

  const FallbackChapterTitles: seq<string> := ["Chapter 1: Introduction", "Chapter 2: The Core Idea",
    "Chapter 3: Practical Applications", "Chapter 4: Advanced Concepts", "Chapter 5: Conclusion"]

  /** A title line's first ':' is the one of its `title:` prefix. */
  lemma TitleTextAfterPrefix(line: string)
    requires IsTitleLine(line)
    ensures TitleText(line) == Trim(line[6..])
  {
    TitlePrefixColon(line);
    var k := IndexOf(line, ':');
    assert line[5] in line[..k + 1];
    assert k == 5;
  }

  /** The sixth character of a title line is its first ':'. */
  lemma TitlePrefixColon(line: string)
    requires IsTitleLine(line)
    ensures |line| >= 6 && line[5] == ':' && ':' !in line[..5]
  {
    var lower := ToLower(line);
    assert lower[..6] == "title:";
    LowerColon(line[5]);
    forall i | 0 <= i < 5
      ensures line[i] != ':'
    {
      LowerColon(line[i]);
      assert lower[i] == "title:"[i];
    }
  }

  /** Lower-casing maps only ':' to ':'. */
  lemma LowerColon(c: char)
    ensures ToLowerAscii(c) == ':' <==> c == ':'
  {
  }

  /** A title line is never blank, so dropping blank lines never drops one. */
  lemma TitleLineNotBlank(line: string)
    requires IsTitleLine(line)
    ensures NotBlank(line)
  {
    var lower := ToLower(line);
    assert lower[..6] == "title:";
    assert ToLowerAscii(line[0]) == 't';
    assert !IsWhitespace(line[0]);
    assert LeadingWhitespace(line) == 0;
    assert TrailingWhitespaceStart(line) > 0;
  }

  /** The title is the text after `title:` on the first title line of the raw response, trimmed;
      with no title line anywhere, it is the topic.  Blank lines play no part. */
  lemma {:induction false} OutlineTitle(text: string, topic: string)
    ensures Find(Split(text, '\n'), IsTitleLine).None? ==> ParseOutline(text, topic).title == topic
    ensures Find(Split(text, '\n'), IsTitleLine).Some? ==>
              ParseOutline(text, topic).title == Trim(Find(Split(text, '\n'), IsTitleLine).value[6..])
  {
    forall line | IsTitleLine(line)
      ensures NotBlank(line)
    {
      TitleLineNotBlank(line);
    }
    FindThroughFilter(Split(text, '\n'), NotBlank, IsTitleLine);
    var found := Find(Split(text, '\n'), IsTitleLine);
    if found.Some? {
      var i := FindIndex(Split(text, '\n'), IsTitleLine).value;
      TitleTextAfterPrefix(found.value);
    }
  }

  /** The structure's lines: every non-blank line of the response that is not a title line (all of
      them, not only the first title line are dropped), in their original order.  When any remain,
      splitting the structure on newlines gives them back. */
  lemma {:induction false} OutlineStructure(text: string, topic: string)
    ensures var kept := Filter(NonBlankLines(text), NotTitle);
            && kept == Filter(Split(text, '\n'), StructureLine)
            && IsSubsequence(kept, Split(text, '\n'))
            && (forall i :: 0 <= i < |kept| ==> NotBlank(kept[i]) && !IsTitleLine(kept[i]))
            && (kept == [] ==> ParseOutline(text, topic).structure == "")
            && (kept != [] ==> Split(ParseOutline(text, topic).structure, '\n') == kept)
  {
    var raw := Split(text, '\n');
    var kept := Filter(NonBlankLines(text), NotTitle);
    FilterTwice(raw, NotBlank, NotTitle, StructureLine);
    FilterIsSubsequence(raw, StructureLine);
    SplitPartsLackSeparator(text, '\n');
    if kept != [] {
      forall i | 0 <= i < |kept|
        ensures '\n' !in kept[i]
      {
        assert kept[i] in raw;
      }
      SplitJoin(kept, '\n');
    }
  }

  /** `data.finalDetails`. */
  datatype FinalDetails = FinalDetails(dedication: string, quotes: string, author: string, cover: string)

  /** The four fields with their labels, in the order `formatFinalDetails` tests them. */
  function LabelledFields(d: FinalDetails): seq<(string, string)>
  {
    [("- **Author Name:** ", d.author), ("- **Dedication:** ", d.dedication),
     ("- **Favorite Quotes to include:** ", d.quotes), ("- **AI Cover Description:** ", d.cover)]
  }

  predicate HasValue(field: (string, string))
  {
    field.1 != ""
  }

  function RenderFields(fields: seq<(string, string)>): (lines: seq<string>)
    ensures |lines| == |fields|
    ensures forall i :: 0 <= i < |fields| ==> lines[i] == fields[i].0 + fields[i].1
  {
    if fields == [] then [] else [fields[0].0 + fields[0].1] + RenderFields(fields[1..])
  }

  /** The block `formatFinalDetails` returns: one labelled part per non-empty field, in the order
      author, dedication, quotes, cover, joined by newlines, or `None provided.` when there is none. */
  function FinalDetailsText(d: FinalDetails): string
  {
    var parts := RenderFields(Filter(LabelledFields(d), HasValue));
    if parts == [] then "None provided." else Join(parts, "\n")
  }

  /** The parts pushed for the first `k` fields, extended by field `k`. */
  lemma PushField(d: FinalDetails, k: nat)
    requires k < 4
    ensures var fields := LabelledFields(d);
            RenderFields(Filter(fields[..k + 1], HasValue))
            == RenderFields(Filter(fields[..k], HasValue))
               + (if HasValue(fields[k]) then [fields[k].0 + fields[k].1] else [])
  {
    var fields := LabelledFields(d);
    assert fields[..k + 1] == fields[..k] + [fields[k]];
    FilterAppend(fields[..k], fields[k], HasValue);
    var before := Filter(fields[..k], HasValue);
    var after := Filter(fields[..k + 1], HasValue);
    assert RenderFields(after) == RenderFields(before) + RenderFields(after[|before|..]);
  }

  /** What one `if (field) parts.push(label + field)` contributes. */
  function Pushed(caption: string, value: string): seq<string>
  {
    if value != "" then [caption + value] else []
  }

  /** The reference block is what the four conditional pushes produce. */
  lemma {:induction false} FinalDetailsPushes(d: FinalDetails)
    ensures RenderFields(Filter(LabelledFields(d), HasValue))
            == Pushed("- **Author Name:** ", d.author) + Pushed("- **Dedication:** ", d.dedication)
               + Pushed("- **Favorite Quotes to include:** ", d.quotes) + Pushed("- **AI Cover Description:** ", d.cover)
  {
    var fields := LabelledFields(d);
    assert fields[..0] == [];
    assert fields[..4] == fields;
    var p0 := Pushed("- **Author Name:** ", d.author);
    var p1 := Pushed("- **Dedication:** ", d.dedication);
    var p2 := Pushed("- **Favorite Quotes to include:** ", d.quotes);
    var p3 := Pushed("- **AI Cover Description:** ", d.cover);
    assert RenderFields(Filter(fields[..1], HasValue)) == p0 by {
      PushField(d, 0);
    }
    assert RenderFields(Filter(fields[..2], HasValue)) == p0 + p1 by {
      PushField(d, 1);
    }
    assert RenderFields(Filter(fields[..3], HasValue)) == p0 + p1 + p2 by {
      PushField(d, 2);
    }
    PushField(d, 3);
  }

  /** `formatFinalDetails`: the `parts` array filled by four successive `push`es. */
  method FormatFinalDetails(d: FinalDetails) returns (r: string)
    ensures r == FinalDetailsText(d)
  {
    var parts: seq<string> := [];
    if d.author != "" {
      parts := parts + ["- **Author Name:** " + d.author];
    }
    assert parts == Pushed("- **Author Name:** ", d.author);
    if d.dedication != "" {
      parts := parts + ["- **Dedication:** " + d.dedication];
    }
    assert parts == Pushed("- **Author Name:** ", d.author) + Pushed("- **Dedication:** ", d.dedication);
    if d.quotes != "" {
      parts := parts + ["- **Favorite Quotes to include:** " + d.quotes];
    }
    assert parts == Pushed("- **Author Name:** ", d.author) + Pushed("- **Dedication:** ", d.dedication)
                    + Pushed("- **Favorite Quotes to include:** ", d.quotes);
    if d.cover != "" {
      parts := parts + ["- **AI Cover Description:** " + d.cover];
    }
    assert parts == Pushed("- **Author Name:** ", d.author) + Pushed("- **Dedication:** ", d.dedication)
                    + Pushed("- **Favorite Quotes to include:** ", d.quotes) + Pushed("- **AI Cover Description:** ", d.cover);
    FinalDetailsPushes(d);
    r := if |parts| > 0 then Join(parts, "\n") else "None provided.";
  }

  /** The block has as many parts as non-empty fields (a field may itself hold newlines), and it
      is `None provided.` exactly when all four fields are empty. */
  lemma FinalDetailsParts(d: FinalDetails)
    ensures |RenderFields(Filter(LabelledFields(d), HasValue))|
            == (if d.author != "" then 1 else 0) + (if d.dedication != "" then 1 else 0)
             + (if d.quotes != "" then 1 else 0) + (if d.cover != "" then 1 else 0)
    ensures FinalDetailsText(d) == "None provided." <==>
            d.author == "" && d.dedication == "" && d.quotes == "" && d.cover == ""
  {
    FinalDetailsPushes(d);
    var lines := RenderFields(Filter(LabelledFields(d), HasValue));
    if lines != [] {
      assert lines[0] == Filter(LabelledFields(d), HasValue)[0].0 + Filter(LabelledFields(d), HasValue)[0].1;
      assert Filter(LabelledFields(d), HasValue)[0] in LabelledFields(d);
      assert lines[0][0] == '-';
      JoinStartsWithFirst(lines, "\n");
    }
  }

  /** A join starts with the first part's first character. */
  lemma {:induction false} JoinStartsWithFirst(parts: seq<string>, sep: string)
    requires parts != [] && parts[0] != ""
    ensures Join(parts, sep) != [] && Join(parts, sep)[0] == parts[0][0]
  {
  }

  datatype Plan = Free | Pro | Creator

  /** The `task` of `generatePrompt`; `t` is the translation function. */
  function TaskDescription(plan: Plan, t: string -> string, language: string): string
  {
    if plan == Free then t("plan_free_desc")
    else t("plan_pro_desc") + " in " + language
         + ". If the plan is 'Creator', you will also need to be ready to translate it to French, German, and Spanish."
  }

  /** Only the Free plan gets its own task; Pro and Creator share the paid task, which names the
      language right after the translated description, while the Free task ignores the language. */
  lemma TaskSelection(t: string -> string, language: string, other: string)
    ensures TaskDescription(Pro, t, language) == TaskDescription(Creator, t, language)
    ensures TaskDescription(Free, t, language) == TaskDescription(Free, t, other) == t("plan_free_desc")
    ensures var paid := TaskDescription(Pro, t, language);
            var n := |t("plan_pro_desc")|;
            StartsWith(paid, t("plan_pro_desc")) && paid[n..n + 4] == " in "
            && paid[n + 4..n + 4 + |language|] == language
  {
  }

  /** What the `catch` of `generateBookContent` caught. */
  datatype Thrown = ErrorInstance(message: string) | OtherValue

  /** `generateBookContent`: the response text, or an error string in its place. */
  function GenerateBookContent(response: Result<string, Thrown>): (r: string)
    ensures response.Success? ==> r == response.value
    ensures response.Failure? && response.error.ErrorInstance? ==>
              StartsWith(r, "Error generating content: ") && r[26..] == response.error.message
    ensures response.Failure? && response.error.OtherValue? ==>
              r == "An unknown error occurred during content generation."
  {
    match response
    case Success(text) => text
    case Failure(ErrorInstance(message)) => "Error generating content: " + message
    case Failure(OtherValue) => "An unknown error occurred during content generation."
  }
}
