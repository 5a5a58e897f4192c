/**
 * `toMarkdown` (src/utils/formatNote.ts): a generated note rendered as an
 * Obsidian-friendly Markdown text with a fixed layout.
 */
module FormatNote {
  import opened Wrappers
  import Text

  /** A generated note as `toMarkdown` reads it. Any field may be missing;
      `bullets` is `None` also when the value is not an array. */
  datatype Note = Note(title: Option<string>, summary: Option<string>, bullets: Option<seq<string>>)

  /** The title used when a note has none. */
  const UNTITLED: string := "Untitled"

  /** The bullet text standing for "no key points", "（无要点）" with
      full-width parentheses. */
  const NO_BULLETS: string := "\U{FF08}\U{65E0}\U{8981}\U{70B9}\U{FF09}"

  const BULLETS_HEADING: string := "## Bullets"

  /** `(n.title || "Untitled").trim()`: an absent or empty title is replaced
      before trimming. */
  function HeadingTitle(n: Note): string {
    Text.Trim(if n.title.None? || n.title.value == "" then UNTITLED else n.title.value)
  }

  /** `(n.summary || "").trim()`. */
  function SummaryText(n: Note): string {
    Text.Trim(n.summary.GetOr(""))
  }

  /** The bullets that get a line: the non-empty ones of an array, none
      otherwise. */
  function KeptBullets(n: Note): seq<string> {
    match n.bullets
    case Some(bs) => Text.DropEmpty(bs)
    case None => []
  }

  /** One list item per bullet. */
  function ListItems(bs: seq<string>): seq<string> {
    seq(|bs|, i requires 0 <= i < |bs| => "- " + bs[i])
  }

  /** The lines under the bullets heading. */
  function BulletLines(n: Note): seq<string> {
    var kept := KeptBullets(n);
    if kept == [] then ["- " + NO_BULLETS] else ListItems(kept)
  }

  /** Everything before the first list item. */
  function Header(n: Note): string {
    "# " + HeadingTitle(n) + "\n\n" + SummaryText(n) + "\n\n" + BULLETS_HEADING + "\n"
  }

  /** `toMarkdown(n)`: the five lines of the header, then the list items,
      one line each, with no line feed after the last. */
  function ToMarkdown(n: Note): (r: string)
    ensures r == Header(n) + Text.Join(BulletLines(n))
  {
    JoinLayout("# " + HeadingTitle(n), SummaryText(n), BulletLines(n));
    Text.Join(["# " + HeadingTitle(n), "", SummaryText(n), "", BULLETS_HEADING] + BulletLines(n))
  }

  /** No field of the note holds a line feed, so every field stays on its
      own line. */
  predicate IsSingleLine(n: Note) {
    && (n.title.Some? ==> '\n' !in n.title.value)
    && (n.summary.Some? ==> '\n' !in n.summary.value)
    && (n.bullets.Some? ==> forall i :: 0 <= i < |n.bullets.value| ==> '\n' !in n.bullets.value[i])
  }

  lemma TrimUntitled()
    ensures Text.Trim(UNTITLED) == UNTITLED
  {
    Text.TrimmedIsFixed(UNTITLED);
  }

  lemma DefaultTitleChosen(n: Note)
    requires n.title.None? || n.title.value == ""
    ensures HeadingTitle(n) == Text.Trim(UNTITLED)
  {
  }

  /** A missing or empty title gives the heading `# Untitled`. */
  lemma TitleDefault(n: Note)
    requires n.title.None? || n.title.value == ""
    ensures HeadingTitle(n) == UNTITLED
  {
    DefaultTitleChosen(n);
    TrimUntitled();
  }

  /** The heading: a missing or empty title gives `# Untitled`, any other
      title is trimmed, and the heading never begins or ends with white
      space. */
  lemma HeadingLine(n: Note)
    ensures n.title == None ==> HeadingTitle(n) == UNTITLED
    ensures n.title == Some("") ==> HeadingTitle(n) == UNTITLED
    ensures n.title.Some? && n.title.value != "" ==> HeadingTitle(n) == Text.Trim(n.title.value)
    ensures Text.IsTrimmed(HeadingTitle(n))
  {
    if n.title.None? || n.title.value == "" {
      TitleDefault(n);
    }
  }

  /** A title of white space alone is not replaced by the default: it is
      trimmed to nothing and the heading line is just `# `. */
  lemma BlankTitle(n: Note)
    requires n.title.Some? && n.title.value != "" && Text.IsBlank(n.title.value)
    ensures HeadingTitle(n) == ""
    ensures ToMarkdown(n)[..3] == "# \n"
  {
    MarkdownText(n);
  }

  /** The summary line: the trimmed summary, empty when there is none. */
  lemma SummaryLine(n: Note)
    ensures n.summary == None ==> SummaryText(n) == ""
    ensures n.summary.Some? ==> SummaryText(n) == Text.Trim(n.summary.value)
    ensures Text.IsTrimmed(SummaryText(n))
  {
    assert Text.IsBlank("");
  }

  /** The bullets section is never empty: one list item per kept bullet, in
      the order of the array, or else exactly one placeholder item. */
  lemma BulletSection(n: Note)
    ensures |BulletLines(n)| == Text.Max(1, |KeptBullets(n)|)
    ensures forall i :: 0 <= i < |BulletLines(n)| ==> BulletLines(n)[i][..2] == "- "
    ensures KeptBullets(n) == [] ==> BulletLines(n) == ["- " + NO_BULLETS]
    ensures forall i :: 0 <= i < |KeptBullets(n)| ==> BulletLines(n)[i] == "- " + KeptBullets(n)[i]
    ensures n.bullets == None ==> BulletLines(n) == ["- " + NO_BULLETS]
  {
  }

  /** Each bullet of the array that is not empty gets exactly its own item,
      and the empty ones get none; bullets placed after others come after
      them in the text. */
  lemma {:induction false} BulletsInOrder(xs: seq<string>, ys: seq<string>)
    ensures KeptBullets(Note(None, None, Some(xs + ys)))
         == KeptBullets(Note(None, None, Some(xs))) + KeptBullets(Note(None, None, Some(ys)))
    ensures forall b :: b in KeptBullets(Note(None, None, Some(xs))) <==> b in xs && b != ""
  {
    Text.DropEmptyAppend(xs, ys);
  }

  /** Joining the five fixed lines and the list items. */
  lemma JoinLayout(t: string, s: string, bullets: seq<string>)
    requires bullets != []
    ensures Text.Join([t, "", s, "", BULLETS_HEADING] + bullets)
         == t + "\n\n" + s + "\n\n" + BULLETS_HEADING + "\n" + Text.Join(bullets)
  {
    var head := [t, "", s, "", BULLETS_HEADING];
    Text.JoinAppend(head, bullets);
    Text.JoinCons(t, ["", s, "", BULLETS_HEADING]);
    Text.JoinCons("", [s, "", BULLETS_HEADING]);
    Text.JoinCons(s, ["", BULLETS_HEADING]);
    Text.JoinCons("", [BULLETS_HEADING]);
    assert [t] + ["", s, "", BULLETS_HEADING] == head;
  }

  /** The joined list items start with a list item, so one comes right
      after `## Bullets`. */
  lemma MarkdownText(n: Note)
    ensures "- " <= Text.Join(BulletLines(n))
  {
    var bullets := BulletLines(n);
    assert "- " <= bullets[0];
  }

  lemma HeadlineIsSingleLine(n: Note)
    requires IsSingleLine(n)
    ensures '\n' !in HeadingTitle(n) && '\n' !in SummaryText(n)
  {
    Text.TrimKeeps(if n.title.None? || n.title.value == "" then UNTITLED else n.title.value, '\n');
    Text.TrimKeeps(n.summary.GetOr(""), '\n');
  }

  /** Kept bullets come from the array, so they hold no line feed either. */
  lemma BulletLinesAreSingleLine(n: Note)
    requires IsSingleLine(n)
    ensures forall line :: line in BulletLines(n) ==> '\n' !in line
  {
    var kept := KeptBullets(n);
    if kept != [] {
      forall line | line in BulletLines(n) ensures '\n' !in line {
        var k :| 0 <= k < |kept| && line == "- " + kept[k];
        assert kept[k] in n.bullets.value;
      }
    }
  }

  /** The five fixed lines and the list items come back from a split when
      none of them holds a line feed. */
  lemma SplitLayout(t: string, s: string, bullets: seq<string>)
    requires '\n' !in t && '\n' !in s
    requires forall b :: b in bullets ==> '\n' !in b
    ensures Text.SplitLines(Text.Join(["# " + t, "", s, "", BULLETS_HEADING] + bullets))
         == ["# " + t, "", s, "", BULLETS_HEADING] + bullets
  {
    PrefixKeepsSingleLine("# ", t);
    var lines := ["# " + t, "", s, "", BULLETS_HEADING] + bullets;
    forall k | 0 <= k < |lines| ensures '\n' !in lines[k] {
      assert lines[k] in lines;
    }
    Text.SplitJoin(lines);
  }

  lemma PrefixKeepsSingleLine(p: string, t: string)
    requires '\n' !in p && '\n' !in t
    ensures '\n' !in p + t
  {
    forall i | 0 <= i < |p + t| ensures (p + t)[i] != '\n' {
      if i < |p| {
        assert (p + t)[i] == p[i];
      } else {
        assert (p + t)[i] == t[i - |p|];
      }
    }
  }

  /** Splitting the text of a note without line feeds in its fields gives
      back the lines it was joined from. */
  lemma MarkdownSplit(n: Note)
    requires IsSingleLine(n)
    ensures Text.SplitLines(ToMarkdown(n))
         == ["# " + HeadingTitle(n), "", SummaryText(n), "", BULLETS_HEADING] + BulletLines(n)
  {
    HeadlineIsSingleLine(n);
    BulletLinesAreSingleLine(n);
    SplitLayout(HeadingTitle(n), SummaryText(n), BulletLines(n));
  }

  /** The positions of the fixed lines in the layout. */
  lemma LayoutAt(lines: seq<string>, t: string, s: string, bullets: seq<string>)
    requires lines == [t, "", s, "", BULLETS_HEADING] + bullets
    ensures |lines| == 5 + |bullets|
    ensures lines[0] == t && lines[1] == "" && lines[2] == s && lines[3] == ""
    ensures lines[4] == BULLETS_HEADING && lines[5..] == bullets
  {
  }

  /** For a note whose fields hold no line feed, splitting the text on line
      feeds gives back exactly the layout: heading, blank line, summary, blank
      line, `## Bullets`, then the list items, `5 + max(1, k)` lines for `k`
      kept bullets. */
  lemma MarkdownLines(n: Note)
    requires IsSingleLine(n)
    ensures |Text.SplitLines(ToMarkdown(n))| == 5 + Text.Max(1, |KeptBullets(n)|)
    ensures Text.SplitLines(ToMarkdown(n))[0] == "# " + HeadingTitle(n)
    ensures Text.SplitLines(ToMarkdown(n))[1] == ""
    ensures Text.SplitLines(ToMarkdown(n))[2] == SummaryText(n)
    ensures Text.SplitLines(ToMarkdown(n))[3] == ""
    ensures Text.SplitLines(ToMarkdown(n))[4] == BULLETS_HEADING
    ensures Text.SplitLines(ToMarkdown(n))[5..] == BulletLines(n)
  {
    var t, s, bullets := "# " + HeadingTitle(n), SummaryText(n), BulletLines(n);
    var lines := Text.SplitLines(ToMarkdown(n));
    MarkdownSplit(n);
    assert lines == [t, "", s, "", BULLETS_HEADING] + bullets;
    LayoutAt(lines, t, s, bullets);
    BulletSection(n);
    assert |bullets| == Text.Max(1, |KeptBullets(n)|);
  }

  /** A note with a trimmed title and summary and one non-empty bullet. */
  lemma OneBulletNote(t: string, s: string, b: string)
    requires t != "" && Text.IsTrimmed(t) && Text.IsTrimmed(s) && b != ""
    ensures ToMarkdown(Note(Some(t), Some(s), Some([b])))
         == "# " + t + "\n\n" + s + "\n\n" + BULLETS_HEADING + "\n- " + b
  {
    var n := Note(Some(t), Some(s), Some([b]));
    OneBulletParts(n, t, s, b);
    MarkdownText(n);
    OneBulletText(Header(n), t, s, b);
  }

  lemma OneBulletParts(n: Note, t: string, s: string, b: string)
    requires n == Note(Some(t), Some(s), Some([b]))
    requires t != "" && Text.IsTrimmed(t) && Text.IsTrimmed(s) && b != ""
    ensures Header(n) == "# " + t + "\n\n" + s + "\n\n" + BULLETS_HEADING + "\n"
    ensures Text.Join(BulletLines(n)) == "- " + b
  {
    OneBulletHeader(n, t, s);
    OneBulletLines(n, b);
  }

  lemma OneBulletHeader(n: Note, t: string, s: string)
    requires n.title == Some(t) && n.summary == Some(s)
    requires t != "" && Text.IsTrimmed(t) && Text.IsTrimmed(s)
    ensures Header(n) == "# " + t + "\n\n" + s + "\n\n" + BULLETS_HEADING + "\n"
  {
    TitleKept(n, t);
    SummaryKept(n, s);
  }

  lemma TitleKept(n: Note, t: string)
    requires n.title == Some(t) && t != "" && Text.IsTrimmed(t)
    ensures HeadingTitle(n) == t
  {
    Text.TrimmedIsFixed(t);
  }

  lemma SummaryKept(n: Note, s: string)
    requires n.summary == Some(s) && Text.IsTrimmed(s)
    ensures SummaryText(n) == s
  {
    Text.TrimmedIsFixed(s);
  }

  lemma OneBulletLines(n: Note, b: string)
    requires n.bullets == Some([b]) && b != ""
    ensures Text.Join(BulletLines(n)) == "- " + b
  {
    Text.DropEmptyKeepsNonEmpty([b]);
  }

  lemma OneBulletText(h: string, t: string, s: string, b: string)
    requires h == "# " + t + "\n\n" + s + "\n\n" + BULLETS_HEADING + "\n"
    ensures h + ("- " + b) == "# " + t + "\n\n" + s + "\n\n" + BULLETS_HEADING + "\n- " + b
  {
  }
}
