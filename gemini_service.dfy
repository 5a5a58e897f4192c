/**
 * The normalisation half of `generateFormattedNote`
 * (src/services/geminiService.ts): the raw text a language model returned is
 * turned into a note with a title, a summary and bullets. The model call
 * itself is not part of this module; its text is the input `raw`.
 */
module GeminiService {
  import opened Wrappers
  import Text
  import FormatNote

  /** What `JSON.parse` made of the text. */
  datatype Parsed =
    | SyntaxError                   // `JSON.parse` threw
    | NullValue                     // the JSON value `null`: reading `.title` of it throws
    | Value(data: FormatNote.Note)  // any other JSON value; a field that is missing or
                                    // `null`, or any field of a non-object, is `None`

  /** The marker of a Markdown code block. */
  const FENCE: string := "```"

  /** The title of a note made from text that is not JSON. */
  const FALLBACK_TITLE: string := "Generated Note"

  /** How much of the user's text stands in for a missing summary. */
  const INPUT_SUMMARY_LENGTH: nat := 120

  /** How much of the model's text becomes the summary of a fallback note. */
  const RAW_SUMMARY_LENGTH: nat := 200

  /** How many pieces of the model's text become fallback bullets. */
  const FALLBACK_PIECES: nat := 5

  /** `json` in any mix of upper and lower case. */
  predicate IsJsonTag(s: string) {
    && |s| == 4
    && (s[0] == 'j' || s[0] == 'J') && (s[1] == 's' || s[1] == 'S')
    && (s[2] == 'o' || s[2] == 'O') && (s[3] == 'n' || s[3] == 'N')
  }

  // `.replace(/^```json\s*/i, "")`: a leading fence tagged `json` and all
  // the white space after it are removed; any other text is kept.
  function StripJsonOpening(s: string): (r: string)
    ensures |r| <= |s| && r == s[|s| - |r|..]
    ensures !(|s| >= 7 && s[..3] == FENCE && IsJsonTag(s[3..7])) ==> r == s
    ensures |s| >= 7 && s[..3] == FENCE && IsJsonTag(s[3..7]) ==>
      |r| <= |s| - 7 && Text.IsBlank(s[7..|s| - |r|]) && (r == [] || !Text.IsSpace(r[0]))
  {
    if |s| >= 7 && s[..3] == FENCE && IsJsonTag(s[3..7]) then Text.TrimStart(s[7..]) else s
  }

  // `.replace(/^```\s*/i, "")`: a leading bare fence and all the white
  // space after it are removed; any other text is kept.
  function StripOpening(s: string): (r: string)
    ensures |r| <= |s| && r == s[|s| - |r|..]
    ensures !(|s| >= 3 && s[..3] == FENCE) ==> r == s
    ensures |s| >= 3 && s[..3] == FENCE ==>
      |r| <= |s| - 3 && Text.IsBlank(s[3..|s| - |r|]) && (r == [] || !Text.IsSpace(r[0]))
  {
    if |s| >= 3 && s[..3] == FENCE then Text.TrimStart(s[3..]) else s
  }

  /** `.replace(/```$/i, "")`: a fence at the very end is removed, and only
      that. */
  function StripClosing(s: string): (r: string)
    ensures r <= s
    ensures |s| >= 3 && s[|s| - 3..] == FENCE ==> r + FENCE == s
    ensures !(|s| >= 3 && s[|s| - 3..] == FENCE) ==> r == s
  {
    if |s| >= 3 && s[|s| - 3..] == FENCE then s[..|s| - 3] else s
  }

  /** The text handed to `JSON.parse`: the fences stripped, then trimmed.
      It is never longer than the answer and has no white space around it. */
  function StripFence(raw: string): (r: string)
    ensures |r| <= |raw|
    ensures Text.IsTrimmed(r)
  {
    Text.Trim(StripClosing(StripOpening(StripJsonOpening(raw))))
  }

  /** `raw.split(/\n+/).slice(0, 5).filter(Boolean)`. */
  function FallbackBullets(raw: string): (r: seq<string>)
    ensures |r| <= FALLBACK_PIECES
    ensures forall b :: b in r ==> b != [] && '\n' !in b
  {
    var pieces := Text.SplitRuns(raw);
    var first := Text.Take(pieces, FALLBACK_PIECES);
    var r := Text.DropEmpty(first);
    assert forall b :: b in r ==> b in pieces by {
      forall b | b in r ensures b in pieces {
        var i :| 0 <= i < |first| && first[i] == b;
        assert pieces[i] == b;
      }
    }
    r
  }

  /** The note made from what `JSON.parse` gave, `parsed`, for the model's
      text `raw` and the user's text `text`. */
  function FromParsed(parsed: Parsed, raw: string, text: string): (r: FormatNote.Note)
    ensures r.title.Some? && r.summary.Some? && r.bullets.Some?
    // JSON: each field the model gave is kept as it is, even an empty title,
    // and the bullets are never empty.
    ensures parsed.Value? ==>
      && (parsed.data.title.Some? ==> r.title == parsed.data.title)
      && (parsed.data.title.None? ==> r.title == Some(FormatNote.UNTITLED))
      && (parsed.data.summary.Some? ==> r.summary == parsed.data.summary)
      && (parsed.data.summary.None? ==>
            r.summary.value <= text && |r.summary.value| == Text.Min(INPUT_SUMMARY_LENGTH, |text|))
      && r.bullets.value != []
      && (parsed.data.bullets.Some? && parsed.data.bullets.value != [] ==>
            r.bullets == parsed.data.bullets)
      && (parsed.data.bullets.None? || parsed.data.bullets.value == [] ==>
            r.bullets == Some([FormatNote.NO_BULLETS]))
    // Not JSON: a fixed title, the start of the model's own text (fences
    // included) as summary, and its first lines as bullets.
    ensures !parsed.Value? ==>
      && r.title == Some(FALLBACK_TITLE)
      && r.summary.value <= raw && |r.summary.value| == Text.Min(RAW_SUMMARY_LENGTH, |raw|)
      && r.bullets == Some(FallbackBullets(raw))
  {
    match parsed
    case Value(data) =>
      FormatNote.Note(
        Some(data.title.GetOr(FormatNote.UNTITLED)),
        Some(data.summary.GetOr(Text.Take(text, INPUT_SUMMARY_LENGTH))),
        Some(if data.bullets.Some? && data.bullets.value != [] then data.bullets.value
             else [FormatNote.NO_BULLETS]))
    case _ =>
      FormatNote.Note(
        Some(FALLBACK_TITLE),
        Some(Text.Take(raw, RAW_SUMMARY_LENGTH)),
        Some(FallbackBullets(raw)))
  }

  /** The note made from the model's text `raw` for the user's text `text`,
      with `parse` standing for `JSON.parse`: the fences are stripped before
      parsing, never before the fallback. */
  function Normalize(raw: string, text: string, parse: string -> Parsed): (r: FormatNote.Note)
    ensures r.title.Some? && r.summary.Some? && r.bullets.Some?
  {
    FromParsed(parse(StripFence(raw)), raw, text)
  }

  /** All text is line feeds exactly when nothing of it is left for bullets. */
  predicate IsNewlines(s: string) {
    forall i :: 0 <= i < |s| ==> s[i] == '\n'
  }

  /** The fallback bullets are empty exactly when the model's text is made
      of line feeds alone (or is empty). */
  lemma FallbackEmptyIffNewlines(raw: string)
    ensures FallbackBullets(raw) == [] <==> IsNewlines(raw)
  {
    var pieces := Text.SplitRuns(raw);
    var first := Text.Take(pieces, FALLBACK_PIECES);
    if IsNewlines(raw) {
      NewlinesSplit(raw);
      assert first == pieces;
      Text.DropEmptyOfEmpties(first);
    } else {
      TextSplit(raw);
      var k := if pieces[0] != [] then 0 else 1;
      assert first[k] == pieces[k];
      assert first[k] in Text.DropEmpty(first);
    }
  }

  /** Line feeds alone split into empty pieces only. */
  lemma NewlinesSplit(raw: string)
    requires IsNewlines(raw)
    ensures Text.SplitRuns(raw) == [""] || Text.SplitRuns(raw) == ["", ""]
  {
    if raw != [] {
      Text.SkipAllNewlines(raw);
      BreakOnlySplit(raw);
    }
  }

  /** Text made of one run of line feeds splits into two empty pieces. */
  lemma BreakOnlySplit(raw: string)
    requires raw != [] && raw[0] == '\n' && Text.SkipNewlines(raw) == []
    ensures Text.SplitRuns(raw) == ["", ""]
  {
    Text.SplitRunsLeadingBreak(raw);
    assert '\n' !in Text.SkipNewlines(raw);
  }

  /** Text that is not all line feeds has a non-empty piece among the first
      two. */
  lemma TextSplit(raw: string)
    requires !IsNewlines(raw)
    ensures Text.SplitRuns(raw)[0] != [] || (|Text.SplitRuns(raw)| >= 2 && Text.SplitRuns(raw)[1] != [])
  {
    if raw[0] == '\n' {
      LeadingBreakSplit(raw);
    }
  }

  /** After leading line feeds, the first piece holds the first other
      character. */
  lemma LeadingBreakSplit(raw: string)
    requires !IsNewlines(raw) && raw[0] == '\n'
    ensures |Text.SplitRuns(raw)| >= 2 && Text.SplitRuns(raw)[1] != []
  {
    var j :| 0 <= j < |raw| && raw[j] != '\n';
    Text.SplitRunsLeadingBreak(raw);
    Text.SkipNewlinesStops(raw, j);
  }

  /** Over text made of lines, the fallback bullets are the non-empty ones
      among the first five lines; a run of line feeds, however long, counts
      as one break. */
  lemma FallbackOfLines(pieces: seq<string>, breaks: seq<string>)
    requires Text.IsRunSplit(pieces) && |breaks| == |pieces| - 1
    requires forall k :: 0 <= k < |breaks| ==> Text.IsBreak(breaks[k])
    ensures FallbackBullets(Text.JoinBy(pieces, breaks)) == Text.DropEmpty(Text.Take(pieces, FALLBACK_PIECES))
  {
    Text.SplitRunsJoinBy(pieces, breaks);
  }

  /** A fenced block, tagged `json` in any case or not tagged, gives back
      its body to `JSON.parse`. */
  lemma FencedBody(tag: string, body: string)
    requires tag == "" || IsJsonTag(tag)
    requires body != [] && Text.IsTrimmed(body) && body[0] != '`'
    ensures StripFence(FENCE + tag + "\n" + body + "\n" + FENCE) == body
  {
    if tag == "" {
      FencedBare(tag, body);
    } else {
      FencedJson(tag, body);
    }
  }

  lemma FencedJson(tag: string, body: string)
    requires IsJsonTag(tag)
    requires body != [] && Text.IsTrimmed(body) && body[0] != '`'
    ensures StripFence(FENCE + tag + "\n" + body + "\n" + FENCE) == body
  {
    var s := FENCE + tag + "\n" + body + "\n" + FENCE;
    var inner := body + "\n" + FENCE;
    assert s[..3] == FENCE && s[3..7] == tag;
    assert s[7..] == "\n" + inner;
    LineFeedSkipped(inner);
    assert StripJsonOpening(s) == inner;
    assert inner[..3][0] != FENCE[0];
    assert StripOpening(inner) == inner;
    ClosedBody(body);
  }

  lemma FencedBare(tag: string, body: string)
    requires tag == ""
    requires body != [] && Text.IsTrimmed(body) && body[0] != '`'
    ensures StripFence(FENCE + tag + "\n" + body + "\n" + FENCE) == body
  {
    var s := FENCE + tag + "\n" + body + "\n" + FENCE;
    var inner := body + "\n" + FENCE;
    assert s[3] == '\n';
    assert StripJsonOpening(s) == s;
    assert s[..3] == FENCE && s[3..] == "\n" + inner;
    LineFeedSkipped(inner);
    assert StripOpening(s) == inner;
    ClosedBody(body);
  }

  /** The line feed after an opening fence is white space. */
  lemma LineFeedSkipped(inner: string)
    requires inner != [] && !Text.IsSpace(inner[0])
    ensures Text.TrimStart("\n" + inner) == inner
  {
    assert Text.IsBlank("\n");
    Text.TrimStartSkips("\n", inner);
  }

  /** The closing fence and the line feed before it go. */
  lemma ClosedBody(body: string)
    requires body != [] && Text.IsTrimmed(body)
    ensures Text.Trim(StripClosing(body + "\n" + FENCE)) == body
  {
    var inner := body + "\n" + FENCE;
    assert inner[|inner| - 3..] == FENCE;
    assert StripClosing(inner) == [] + (body + "\n");
    assert Text.IsBlank([]) && Text.IsBlank("\n");
    Text.TrimAround([], body, "\n");
  }

  /** Text that neither starts nor ends with a fence is only trimmed before
      `JSON.parse` sees it. */
  lemma UnfencedBody(s: string)
    requires |s| < 3 || (s[..3] != FENCE && s[|s| - 3..] != FENCE)
    ensures StripFence(s) == Text.Trim(s)
  {
    NoOpening(s);
    assert StripClosing(s) == s;
  }

  /** Neither opening pattern matches text that does not start with a
      fence. */
  lemma NoOpening(s: string)
    requires |s| < 3 || s[..3] != FENCE
    ensures StripOpening(StripJsonOpening(s)) == s
  {
  }

  /** `$` matches only at the very end of the text, so a closing fence
      followed by a line feed stays, and `JSON.parse` is handed the body with
      the fence still after it. */
  lemma FenceBeforeLineFeed(tag: string, body: string)
    requires tag == "" || IsJsonTag(tag)
    requires body != [] && Text.IsTrimmed(body) && body[0] != '`'
    ensures StripFence(FENCE + tag + "\n" + body + "\n" + FENCE + "\n") == body + "\n" + FENCE
  {
    var s := FENCE + tag + "\n" + body + "\n" + FENCE + "\n";
    var inner := body + "\n" + FENCE + "\n";
    if tag == "" {
      OpenedBare(s, inner);
    } else {
      OpenedJson(s, tag, inner);
    }
    LineFeedClosed(body);
  }

  lemma OpenedBare(s: string, inner: string)
    requires inner != [] && inner[0] != '`' && !Text.IsSpace(inner[0])
    requires s == FENCE + "\n" + inner
    ensures StripOpening(StripJsonOpening(s)) == inner
  {
    assert s[3] == '\n';
    assert StripJsonOpening(s) == s;
    assert s[..3] == FENCE && s[3..] == "\n" + inner;
    LineFeedSkipped(inner);
  }

  lemma OpenedJson(s: string, tag: string, inner: string)
    requires IsJsonTag(tag)
    requires inner != [] && inner[0] != '`' && !Text.IsSpace(inner[0])
    requires s == FENCE + tag + "\n" + inner
    ensures StripOpening(StripJsonOpening(s)) == inner
  {
    assert s[..3] == FENCE && s[3..7] == tag;
    assert s[7..] == "\n" + inner;
    LineFeedSkipped(inner);
    assert |inner| >= 3 ==> inner[..3][0] != FENCE[0];
  }

  /** A closing fence followed by a line feed is not removed. */
  lemma LineFeedClosed(body: string)
    requires body != [] && Text.IsTrimmed(body)
    ensures Text.Trim(StripClosing(body + "\n" + FENCE + "\n")) == body + "\n" + FENCE
  {
    var inner := body + "\n" + FENCE + "\n";
    assert inner[|inner| - 1] == '\n';
    assert StripClosing(inner) == inner;
    OpenFenceTrimmed(body);
  }

  /** The line feed after the fence is trimmed away; the fence is not. */
  lemma OpenFenceTrimmed(body: string)
    requires body != [] && Text.IsTrimmed(body)
    ensures Text.Trim(body + "\n" + FENCE + "\n") == body + "\n" + FENCE
  {
    var u := body + "\n" + FENCE;
    assert u[0] == body[0] && u[|u| - 1] == '`';
    assert Text.IsBlank([]) && Text.IsBlank("\n");
    assert [] + (u + "\n") == body + "\n" + FENCE + "\n";
    Text.TrimAround([], u, "\n");
  }

  /** A JSON note with at least one non-empty bullet is rendered with exactly
      those bullets as list items, in their order. */
  lemma JsonMarkdown(raw: string, text: string, parse: string -> Parsed, bs: seq<string>)
    requires parse(StripFence(raw)).Value?
    requires parse(StripFence(raw)).data.bullets == Some(bs)
    requires Text.DropEmpty(bs) != []
    ensures var n := Normalize(raw, text, parse);
      FormatNote.ToMarkdown(n) == FormatNote.Header(n) + Text.Join(FormatNote.ListItems(Text.DropEmpty(bs)))
  {
    FormatNote.MarkdownText(Normalize(raw, text, parse));
  }

  /** Text that is not JSON but holds something besides line feeds is
      rendered with its first lines as list items, at least one of them. */
  lemma ProseMarkdown(raw: string, text: string, parse: string -> Parsed)
    requires !parse(StripFence(raw)).Value?
    requires !IsNewlines(raw)
    ensures FallbackBullets(raw) != []
    ensures var n := Normalize(raw, text, parse);
      FormatNote.ToMarkdown(n) == FormatNote.Header(n) + Text.Join(FormatNote.ListItems(FallbackBullets(raw)))
  {
    FallbackEmptyIffNewlines(raw);
    Text.DropEmptyKeepsNonEmpty(FallbackBullets(raw));
    FormatNote.MarkdownText(Normalize(raw, text, parse));
  }

  /** A JSON note without a summary, for a short text: the text is the
      summary. */
  lemma ShortTextSummary(raw: string, text: string, parse: string -> Parsed, t: string, bs: seq<string>)
    requires parse(StripFence(raw)) == Value(FormatNote.Note(Some(t), None, Some(bs)))
    requires bs != [] && |text| <= INPUT_SUMMARY_LENGTH
    ensures Normalize(raw, text, parse) == FormatNote.Note(Some(t), Some(text), Some(bs))
  {
    Text.TakeAll(text, INPUT_SUMMARY_LENGTH);
  }

  /** The note `{"title":"Groceries","bullets":["Buy milk"]}` made from the
      text `buy milk`: the summary is taken from the text. */
  lemma GroceriesNote(raw: string, parse: string -> Parsed)
    requires parse(StripFence(raw)) == Value(FormatNote.Note(Some("Groceries"), None, Some(["Buy milk"])))
    ensures FormatNote.ToMarkdown(Normalize(raw, "buy milk", parse))
         == "# Groceries" + "\n\n" + "buy milk" + "\n\n" + "## Bullets" + "\n" + "- Buy milk"
  {
    var t, s, b := "Groceries", "buy milk", "Buy milk";
    ShortTextSummary(raw, s, parse, t, [b]);
    GroceriesTrimmed(t, s);
    FormatNote.OneBulletNote(t, s, b);
    GroceriesText(t, s, b);
  }

  lemma GroceriesTrimmed(t: string, s: string)
    requires t == "Groceries" && s == "buy milk"
    ensures Text.IsTrimmed(t) && Text.IsTrimmed(s)
  {
  }

  lemma GroceriesText(t: string, s: string, b: string)
    requires t == "Groceries" && s == "buy milk" && b == "Buy milk"
    ensures "# " + t + "\n\n" + s + "\n\n" + FormatNote.BULLETS_HEADING + "\n- " + b
         == "# Groceries" + "\n\n" + "buy milk" + "\n\n" + "## Bullets" + "\n" + "- Buy milk"
  {
    assert "# " + t == "# Groceries" && "\n- " + b == "\n" + "- Buy milk";
    assert "# " + t + "\n\n" + s + "\n\n" + FormatNote.BULLETS_HEADING + "\n- " + b
        == ("# " + t) + "\n\n" + s + "\n\n" + FormatNote.BULLETS_HEADING + ("\n- " + b);
  }
}
