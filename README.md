# Idea Forge in Dafny

Idea Forge turns a rough idea into an Obsidian note. The user types some text,
and a language model is asked to write the note. This project models the three
parts of the code that hold logic, and proves what each part promises. The
three are not chained into one pipeline:
- `App.tsx` imports the root `services/geminiService.ts`, whose
  `generateFormattedNote` returns the model's own Markdown text. That text is
  what the page shows and what its short history (newest first) keeps.
- `src/services/geminiService.ts` asks for a note with a title, a summary and
  bullets, and normalises the model's answer into such a note.
- `src/utils/formatNote.ts` renders such a note as Markdown. It is reached
  from `src/components/ResultView.tsx:18`, not from `App.tsx`.

- `wrappers.dfy` (`Wrappers`): `Option`. A JavaScript value that is absent,
  `undefined` or `null` is `None`.
- `text.dfy` (`Text`): the string operations the code relies on, with their
  properties:
  - `trim`, and the regular-expression white space `\s`, over the
    ECMAScript WhiteSpace and LineTerminator characters;
  - `slice(0, n)`, `filter(Boolean)`, `join("\n")` and `split(/\n+/)`;
  - `SplitLines`, the lines of a text. The code never splits on single line
    feeds; the model uses it to state the layout of a joined text.
- `format_note.dfy` (`FormatNote`): `toMarkdown`.
  - It renders a heading, a blank line, the summary, a blank line,
    `## Bullets`, then one list item per non-empty bullet, or a placeholder
    item.
- `gemini_service.dfy` (`GeminiService`): the normalisation in
  `generateFormattedNote`.
  - Markdown code fences are stripped from the model's answer.
  - The answer is parsed as JSON, and missing fields get defaults.
  - When parsing fails, a note is built from the raw text instead.
  - `JSON.parse` is a parameter `parse: string -> Parsed`. `Parsed` says
    whether it threw, gave `null`, or gave a value.
- `app.dfy` (`App`): the page state of `App.tsx` as a class `Session`.
  - Its fields are `input`, `history`, `current` and `status`.
  - Its methods are the handlers that update them.
  - `handleProcess` awaits the generator, so it is split at the `await`:
    - `BeginProcess` is the synchronous part;
    - `CompleteProcess` is what happens when the answer arrives;
    - `Process` runs the two back to back.
  - The generator's result is an `Outcome` parameter.
  - The id and the clock are parameters too.

Behaviours of the code worth knowing:
- `??` replaces only a missing or `null` field. So a JSON note with an empty
  title keeps the empty title. The formatter then shows `Untitled`, because
  `||` also replaces `""`.
- A title made only of white space is not replaced. It is trimmed to nothing,
  and the heading line is `# ` (`FormatNote.BlankTitle`).
- The fallback bullets are the non-empty pieces among the first five pieces of
  `split(/\n+/)`. They are not the first five non-empty lines. A text that
  begins with a line feed yields at most four bullets
  (`GeminiService.FallbackOfLines`).
- The fallback can give an empty bullet list, when the text is only line
  feeds (`GeminiService.FallbackEmptyIffNewlines`). The formatter then shows
  its placeholder item.
- `$` in `/```$/i` matches only at the very end of the answer. So a closing
  fence followed by a line feed is not removed, and `JSON.parse` is handed the
  body with the fence after it (`GeminiService.FenceBeforeLineFeed`).

## Model

| member | source | states |
|---|---|---|
| `Text.TrimStart` | src/services/geminiService.ts:28-29 | removes a white-space prefix of the text, the longest one: what is left is empty or starts with a non-space |
| `Text.Trim` | src/services/geminiService.ts:31 | the result neither starts nor ends with white space, and it is empty exactly when the text is all white space |
| `Text.TrimAround` | src/services/geminiService.ts:27-31 | trimming removes exactly the white space around a text, and nothing of the text itself |
| `Text.TrimKeeps` | src/utils/formatNote.ts:6-7 | trimming adds no character: a line feed absent before is absent after |
| `Text.Take` | src/services/geminiService.ts:37 | `slice(0, n)` is a prefix of length `min(n, length)` |
| `Text.DropEmpty` | src/utils/formatNote.ts:8 | `filter(Boolean)` keeps exactly the non-empty strings |
| `Text.DropEmptyAppend` | src/utils/formatNote.ts:8 | filtering commutes with concatenation, so kept strings keep their order |
| `Text.Join` | src/utils/formatNote.ts:19 | `join("\n")`: the first line starts the text and a line feed follows it when more lines come; `JoinBase` and `JoinCons` pin it down completely, also for lines that hold line feeds |
| `Text.SplitLines` | src/utils/formatNote.ts:19 | the lines of a text, the inverse of the join at this line, used to state the layout: at least one line, none holding a line feed |
| `Text.SplitJoin` | src/utils/formatNote.ts:19 | splitting on line feeds undoes joining lines that hold none |
| `Text.SplitRuns` | src/services/geminiService.ts:45 | `split(/\n+/)` gives pieces without line feeds; only the first and last can be empty, and the first is non-empty for a non-empty text that does not start with a line feed |
| `Text.SplitRunsRun` | src/services/geminiService.ts:45 | a run of any number of line feeds after a piece is one break: the piece is the first result, then the pieces of what follows the run |
| `Text.JoinBy` | src/services/geminiService.ts:45 | pieces joined by runs of line feeds of any lengths, a text that starts with the first piece; the input shape of `SplitRunsJoinBy` |
| `Text.SplitRunsJoinBy` | src/services/geminiService.ts:45 | splitting on runs of line feeds undoes joining by runs of any lengths, for pieces of the shape `split(/\n+/)` returns |
| `Text.SplitRunsJoin` | src/services/geminiService.ts:45 | splitting on runs of line feeds undoes joining pieces of that shape |
| `FormatNote.ToMarkdown` | src/utils/formatNote.ts:5-20 | the text is the five header lines (heading, blank, summary, blank, `## Bullets`) followed by the list items joined by line feeds; the lemmas below pin down each part |
| `FormatNote.TitleDefault` | src/utils/formatNote.ts:6 | a missing or empty title gives the heading `Untitled` |
| `FormatNote.HeadingLine` | src/utils/formatNote.ts:6 | the heading title is `Untitled` for a missing or empty title, otherwise the trimmed title, and is always trimmed |
| `FormatNote.BlankTitle` | src/utils/formatNote.ts:6-11 | a title of white space alone is not replaced: the heading line is `# ` |
| `FormatNote.SummaryLine` | src/utils/formatNote.ts:7 | the summary line is the trimmed summary, empty when there is none |
| `FormatNote.BulletSection` | src/utils/formatNote.ts:8-16 | one list item per non-empty bullet in order, each starting `- `; the placeholder item when none is kept or bullets is not an array; never empty |
| `FormatNote.BulletsInOrder` | src/utils/formatNote.ts:8 | a bullet is kept exactly when it is non-empty, and bullets placed later come later |
| `FormatNote.MarkdownText` | src/utils/formatNote.ts:16-19 | the joined list items start with `- `, so a list item comes right after `## Bullets` |
| `FormatNote.MarkdownSplit` | src/utils/formatNote.ts:10-19 | for fields without line feeds, splitting the text on line feeds gives back exactly the lines it was joined from |
| `FormatNote.MarkdownLines` | src/utils/formatNote.ts:10-19 | for fields without line feeds the text has `5 + max(1, k)` lines for `k` kept bullets: heading, blank, summary, blank, `## Bullets`, items |
| `FormatNote.OneBulletNote` | src/utils/formatNote.ts:5-19 | the full text of a note with a trimmed title, a trimmed summary and one bullet |
| `GeminiService.StripJsonOpening` | src/services/geminiService.ts:28 | a leading fence tagged `json` in any case, and all the white space after it, are removed; any other text is kept |
| `GeminiService.StripOpening` | src/services/geminiService.ts:29 | a leading bare fence, and all the white space after it, are removed; any other text is kept |
| `GeminiService.StripClosing` | src/services/geminiService.ts:30 | a fence at the very end is removed, and only when the text ends with one |
| `GeminiService.StripFence` | src/services/geminiService.ts:27-31 | the text handed to `JSON.parse` is no longer than the answer and has no white space around it; `FencedBody`, `UnfencedBody` and `FenceBeforeLineFeed` give it for the three shapes of answer they name |
| `GeminiService.FallbackBullets` | src/services/geminiService.ts:45 | at most five bullets, none empty, none holding a line feed |
| `GeminiService.FromParsed` | src/services/geminiService.ts:33-47 | the JSON mapping: given fields are kept as they are, a missing title becomes `Untitled`, a missing summary the first 120 characters of the user's text, bullets the parsed list when non-empty, else the placeholder; otherwise the fallback: `Generated Note`, the first 200 characters of the unstripped answer, the fallback bullets |
| `GeminiService.Normalize` | src/services/geminiService.ts:26-47 | normalisation always yields a note with all three fields, whatever the answer and whatever `JSON.parse` does |
| `GeminiService.FencedBody` | src/services/geminiService.ts:27-31 | a fenced block, tagged `json` in any case or untagged, hands exactly its body to `JSON.parse` |
| `GeminiService.UnfencedBody` | src/services/geminiService.ts:27-31 | an answer that neither starts nor ends with a fence is only trimmed before parsing |
| `GeminiService.FenceBeforeLineFeed` | src/services/geminiService.ts:30 | a fenced block followed by a line feed keeps its closing fence: `JSON.parse` is handed the body, a line feed and the fence |
| `GeminiService.FallbackEmptyIffNewlines` | src/services/geminiService.ts:45 | the fallback bullets are empty exactly when the answer is made of line feeds alone |
| `GeminiService.FallbackOfLines` | src/services/geminiService.ts:45 | over pieces joined by runs of line feeds of any lengths, the fallback bullets are the non-empty pieces among the first five |
| `GeminiService.ShortTextSummary` | src/services/geminiService.ts:37 | a JSON note without a summary, for a text of at most 120 characters, takes the whole text as summary |
| `GeminiService.JsonMarkdown` | src/services/geminiService.ts:34-39 | a JSON note with non-empty bullets is rendered with exactly those bullets as list items, in order |
| `GeminiService.ProseMarkdown` | src/services/geminiService.ts:42-46 | an answer that is not JSON and not only line feeds is rendered with its fallback bullets, at least one, as list items |
| `GeminiService.GroceriesNote` | src/services/geminiService.ts:34-39 | `{"title":"Groceries","bullets":["Buy milk"]}` for the text `buy milk` renders as `# Groceries`, blank, `buy milk`, blank, `## Bullets`, `- Buy milk` |
| `App.Preview` | App.tsx:48 | the first 40 characters of the text, then `...` exactly when the text is longer; at most 43 characters |
| `App.InsertNewest` | App.tsx:52 | the new entry first, then the earlier entries in order, cut to `MAX_HISTORY` = 20; nothing is dropped while fewer than 20 are kept |
| `App.Reversed` | App.tsx:52 | the entries in the opposite order: position `k` holds the entry `k` places from the end; used to state the order of repeated insertion |
| `App.InsertAllIsLatest` | App.tsx:52 | after any number of generations the history is the latest 20 entries, newest first, followed by what fits of the earlier history |
| `App.RemoveId` | App.tsx:85 | keeps exactly the entries with another id; the history is unchanged exactly when no entry has the id |
| `App.RemoveIdAppend` | App.tsx:85 | removal works on each part of the history separately, so the remaining entries keep their order |
| `App.RemoveIdIdempotent` | App.tsx:85 | deleting the same id twice is deleting it once |
| `App.InsertKeepsUnique` | App.tsx:44-52 | an entry with a fresh id keeps the ids in the history distinct |
| `App.RemoveKeepsUnique` | App.tsx:85 | deleting keeps the ids in the history distinct |
| `App.RemoveUniqueOne` | App.tsx:85 | with distinct ids, deleting a present id removes exactly one entry |
| `App.Session.constructor` | App.tsx:11-14 | nothing typed, an empty history, nothing shown, idle |
| `App.Session.Edit` | App.tsx:227 | typing sets the text and nothing else |
| `App.Session.BeginProcess` | App.tsx:35-38 | text of white space alone changes nothing and sends nothing; other text is sent and the status becomes loading |
| `App.Session.CompleteProcess` | App.tsx:40-59 | success: the new entry heads the capped history, is shown, the status is success and the text area is cleared; failure: only the status changes, to the error message or `Unknown error occurred`; the history stays within 20 and fresh ids keep ids distinct |
| `App.Session.Process` | App.tsx:35-60 | blank text changes nothing; otherwise the success or failure state above, and the new entry's text is the text before clearing |
| `App.Session.Select` | App.tsx:77-78 | the chosen entry is shown; nothing else changes |
| `App.Session.Delete` | App.tsx:84-89 | the history loses exactly the entries with the id and keeps distinct ids distinct; the shown note is cleared exactly when it has that id |
| `App.Session.New` | App.tsx:91-94 | nothing shown, empty text, idle; the history stays |

## Left out

- Calls to the language model are left out: client construction, the prompt, `generateContent` and reading the response text. The model's answer is the input `raw`, and what `handleProcess` receives is the `Outcome` parameter.
- The checks that throw when the API key is missing are left out. They are configuration checks.
- `services/geminiService.ts` is not part of this model. It is a prompt template and one model call. `App.tsx` imports it, and the model covers it only through the `Outcome` it yields.
- `JSON.parse` itself is not modelled. It is the parameter `parse`, applied to the stripped text.
- A JSON field of a type other than string or string array is not modelled. `Note` holds strings and `Option`s only, and a non-array `bullets` is `None`.
- Persisting the history in `localStorage` is browser I/O and is left out (App.tsx:19-33). A session starts with an empty history.
- `handleSaveToObsidian` is left out. It is URL navigation and uses `encodeURIComponent`.
- The sidebar state, the window-width check, the text-area focus and all rendering are left out. The components `ResultView` and `HistoryItem` are left out too.
- `crypto.randomUUID()` and `Date.now()` are parameters (`freshId`, `now`).
  - Ids are not assumed unique.
  - `CompleteProcess` states that a fresh id keeps the ids distinct.
- Strings are sequences of code points. JavaScript's `slice` and `length` count UTF-16 units, so the two differ only for characters outside the Basic Multilingual Plane.
- React batches state updates and renders asynchronously; the model does not. Each handler is one atomic step.
  - `Process` assumes nothing else runs between sending and answering.
  - An edit, a deletion or a second submission can happen in between in the real page. That interleaving is captured only by calling `BeginProcess`, other methods and `CompleteProcess` separately.
- Cmd/Ctrl+Enter calls `handleProcess` even while a request is loading. Only the button is disabled then. The model keeps no loading guard, like the handler.
