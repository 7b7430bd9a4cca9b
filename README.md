# StoryWorlds storybook core, in Dafny

StoryWorlds (`storybook.py`) is a Streamlit app that tells an interactive
children's story. It asks a text model for a story segment, lets the child pick
one of the numbered choices in the reply, and records every segment so that the
whole story can be exported as a PDF. This project models the four pieces of
deterministic logic inside that script and proves what they do:

- **The choice extractor** `extract_choices` (module `Choices`, with `Replies`
  and `ChoiceExamples`). It has two parts:
  - A header test. It checks whether the reply has a `Choice:`/`Choices:`
    header, then `1.`, then a later `\n2.`.
  - An item scan. It finds every `<digits>.` item in the *whole* reply and
    captures the rest of each item's line.

  Both regular expressions are written as hand scanners. The header test also
  gets a second, declarative definition that reads like the regex match:
  `HeaderMatch` and `HeaderPattern`. The item scan likewise gets the predicate
  `ItemAt`. Soundness lemmas connect each scanner to its definition.
- **The prompt template** of `generate_story_segment` (module `Prompt`). It is a
  function of the five interpolated values.
- **The session state** (module `Session`). It covers the three entries
  `story_progress`, `last_choice` and `history`, their initialisation, and the
  "Continue Story" handler. These are a class `SessionState` with `Init` and
  `Advance` methods. The methods are specified against a value-level
  transition `Advanced` and its fold `Replay`.
- **The page layout of `save_story_pdf`** (module `Pdf`). The canvas becomes
  the list of `Draw(page, y, text)` records that the loop would issue. The loop
  is a method, `SaveStoryLayout`, and it is proved equal to a functional
  specification, `Layout`. Lemmas about `Layout` give what is drawn and where.

`Text` holds what the others share:
- the character classes (`IsSpace` is exactly Python's `str.isspace()`);
- the greedy scanners for `\s*`, `\d+` and `.*`;
- Python's `str.strip()` and `str.split("\n")`.

Facts about the script that shape the model:
- The "Continue Story" handler has no guard for an empty choice, and neither
  has `Advance`. None is needed: `ExtractChoices` never returns an empty list,
  so the radio button always has a selection.
- The text appended to the progress is `"\nChild chose option: " + choice + "."`.
- The history stores the raw model output of the run in which the button was
  pressed.
- `extract_choices` returns only a list of choices. The script extracts no
  narrative or feedback and has no line-by-line parser. The line-scanning
  variant is in `storybook 2.py`, which is not part of this model.
- A choice is model text and may itself contain `Child chose option:`, so the
  number of such markers in the progress is not a count of presses.
  `ReplayEffect` states the exact text appended per press instead.

## Model

| member | source | states |
|---|---|---|
| Choices.ExtractChoices | storybook.py:82-92 | The result always has one or two entries. Each entry has no line break and no leading whitespace. Without a header match it is exactly `["Option 1", "Option 2"]`. With one, it is the first two captures (or the only one) of the item scan over the whole text. |
| Choices.SearchHeader | storybook.py:84 | `re.search` of the header pattern: try a match at every start index from `i` on, in order. |
| Choices.HeaderAt | storybook.py:84 | A match at `i`: the keyword `Choice:` or `Choices:`, then the rest of the pattern after it. |
| Choices.HeaderAfter | storybook.py:84 | Greedy `\s*`, then `1.`, then some later `\n2.` (the lazy `.*?` of the DOTALL pattern can stretch over any text). |
| Choices.HeaderTestSound | storybook.py:84 | The header scanner `SearchHeader(s, 0)` holds if and only if the regex-semantics predicate `HeaderPattern(s)` holds. `HeaderPattern` allows any split of the whitespace and any position of the later `\n2.`. |
| Choices.SearchHeaderSound | storybook.py:84 | At every start index, searching from `i` succeeds if and only if a header match starts at some index at or after `i`. |
| Choices.HeaderAtSound | storybook.py:84 | A header match starts at `i` exactly when one of the two keywords is there and the rest of the pattern follows it. |
| Choices.HeaderAfterSound | storybook.py:84 | After the keyword, the greedy whitespace skip finds `1.` and a later `\n2.` if and only if some whitespace split does. |
| Choices.NewlineTwoFromSound | storybook.py:84 | `NewlineTwoFrom(s, j)` holds if and only if `\n2.` occurs at some index at or after `j`. |
| Choices.OnlyMaximalRun | storybook.py:84 | Every whitespace run that is followed by `1.` is the maximal run. Backtracking `\s*` therefore cannot create another header match. |
| Choices.KeywordRest | storybook.py:84 | When the keyword `Choices?:` at `i` can only end at `k`, a header match starts at `i` exactly when the rest of the pattern matches from `k`. |
| Choices.ItemAtSound | storybook.py:88 | `ItemAt(s, i)` holds if and only if some non-empty digit run at `i` is followed by `.`, which is the backtracking semantics of `\d+\.`. |
| Choices.Capture | storybook.py:88 | The captured `(.*)` text of an item has no line break and does not start with whitespace. |
| Choices.FindItems | storybook.py:88 | Every capture that `re.findall` returns has no line break and does not start with whitespace. |
| Choices.ScanReaches | storybook.py:88 | The scan from `pos` returns first the capture of the first item at or after `pos`, then resumes where that item's line ends. |
| Choices.ScanFindsNothing | storybook.py:88 | With no item at or after `pos`, the scan returns nothing. |
| Choices.ScanFindsSome | storybook.py:88 | An item at or after `pos` means the scan returns at least one capture. |
| Choices.HeaderYieldsItem | storybook.py:84-88 | A header match always gives the item scan at least one capture, the header's own `1.`. So a header never yields an empty list of choices. |
| Choices.FirstTwoItems | storybook.py:86-89 | With a header, the choices are the capture of the first item anywhere in the text and the capture of the first item after that one's line. Where the header stands does not matter. |
| Choices.FoundTwo | storybook.py:88 | The scan's first two captures are those of the first item and of the next item after its line. |
| Choices.HeaderTakesTwo | storybook.py:85-89 | With a header and at least two captures, the result is exactly the first two captures. |
| Choices.SingleItem | storybook.py:86-89 | With a header and no item after the first item's line, the result is that single capture. |
| Replies.NumberedLine | storybook.py:88 | A line `<digit>. c`, where `c` is non-empty with no leading whitespace, is an item whose capture is exactly `c`, ending at the line break. |
| Replies.ReplyHeader | storybook.py:84 | `Choices:\n1. ` followed later by `\n2. ` is a header match. |
| Replies.NoItemBefore | storybook.py:88 | Without digits before a position, no item starts before it. |
| Replies.ReplyChoices | storybook.py:82-92 | Positional form of `WellFormedReply`. |
| Replies.ReplyLines | storybook.py:88 | Two adjacent numbered lines, with no item before them, are the scan's first two captures. |
| Replies.WellFormedReply | storybook.py:82-92 | Take any digit-free text, then `Choices:\n1. a\n2. b`, then the end of the text or a line break followed by anything, such as more options or the feedback line. The choices are exactly `[a, b]`. |
| Replies.ItemBeforeHeaderAt | storybook.py:86-89 | Positional form of `ItemBeforeHeader`. |
| Replies.ItemBeforeHeaderLines | storybook.py:88 | A numbered line before the header and the header's `1.` line are the scan's first two captures. |
| Replies.ItemBeforeHeader | storybook.py:86-89 | Take the text `1. x\nChoices:\n1. a\n2. b`. The choices are `[x, a]`, whatever `b` is. The numbered line before the header wins, because the scan is not limited to the header's section. |
| Replies.EmptyHeader | storybook.py:84 | `Choices: 1.\n2. ` is a header match. |
| Replies.EmptyItem | storybook.py:88 | With nothing after `1.`, `\s*` runs over the line break and the capture is the whole `2.` line. |
| Replies.EmptyFirstChoice | storybook.py:84-89 | Take a digit-free text, then `Choices: 1.\n2. b`. The result is the single choice `"2. " + b`. |
| ChoiceExamples.FallbackWithoutKeyword | storybook.py:84-92 | A text without a capital `C` gets the fallback pair. |
| ChoiceExamples.FallbackWithoutSecondItem | storybook.py:84-92 | A text with no `\n2.` anywhere gets the fallback pair, however many other numbered lines it has. |
| ChoiceExamples.NoHeaderExample | storybook.py:90-92 | A story with no options gets `["Option 1", "Option 2"]`. |
| ChoiceExamples.LowerCaseHeaderExample | storybook.py:84 | `choices:` in lower case is no header: the fallback pair. |
| ChoiceExamples.OneItemExample | storybook.py:84 | `Choices:\n1. Left` alone is no header: the fallback pair. |
| ChoiceExamples.StoryReplyExample | storybook.py:82-92 | The reply `Once upon a time.\nChoices:\n1. Go left\n2. Go right\nGreat job!` gives `["Go left", "Go right"]`. |
| ChoiceExamples.FourItemExample | storybook.py:89 | Four numbered options give only the first two. |
| ChoiceExamples.ItemBeforeHeaderExample | storybook.py:86-88 | `1. X\nChoices:\n1. A\n2. B` gives `["X", "A"]`. |
| ChoiceExamples.EmptyFirstItemExample | storybook.py:84-89 | `Choices: 1.\n2. B` gives the single choice `["2. B"]`. |
| Prompt.BuildPrompt | storybook.py:60-74 | The f-string of `generate_story_segment`, byte for byte: the leading line break, the four-space indentation of every line, the blank lines, the en dash in `3\u20134`, and the closing four spaces. |
| Prompt.PromptFieldsInOrder | storybook.py:60-74 | The prompt contains `Character: `, `Sidekick: `, `Setting: `, `Story progress so far: ` and `Child's last choice: `, each followed by its value and a line break, in that order. After them it contains the directive `exactly 2 options`. |
| Prompt.PromptLines | storybook.py:64-72 | The same facts at their exact offsets in the template. |
| Prompt.PromptEndsWithFormat | storybook.py:70-74 | Whatever the five values are, the prompt ends with the same output-format directive. |
| Prompt.EndsLine | storybook.py:64-68 | An interpolated value followed by the next template line ends its own line. |
| Session.Advanced | storybook.py:179-181 | One press on values: the last choice becomes the choice, the annotation is appended to the progress, and the output is appended to the history. |
| Session.Replay | storybook.py:178-182 | The entries after a sequence of presses, one `Advanced` step per press, in order. |
| Session.ReplayEffect | storybook.py:179-181 | After any sequence of Continue presses, the history is the old history followed by, in order, the `story_output` of the script run in which each press fired. The progress is the old progress followed by one `\nChild chose option: <choice>.` per press. The last choice is the most recent one, or unchanged when there were no presses. |
| Session.OutputsLength | storybook.py:181 | One recorded output per press, in order. |
| Session.HistoryCountsTurns | storybook.py:51-56 | From the initial entries, after N presses the history has exactly N entries, the i-th being the `story_output` of the run of the i-th press, and the progress still starts with `new story`. |
| Session.ProgressGrows | storybook.py:180 | The progress only grows. Every earlier progress is a prefix of every later one. |
| Session.SessionState.constructor | storybook.py:51-56 | A fresh browser session has none of the three entries. |
| Session.SessionState.Init | storybook.py:51-56 | Each entry is stored only if it is missing: `"new story"`, `"none"` and `[]`. A session that already has all three is left unchanged, so re-running the script does not reset the story. |
| Session.SessionState.Advance | storybook.py:178-182 | The new entries are the `Advanced` transition of the old ones. The last choice becomes `choice`, the progress gets the annotation appended, and the history gets `storyOutput` appended. The history length is the initial length plus the number of presses, and the old progress is a prefix of the new one. |
| Pdf.SaveStoryLayout | storybook.py:132-142 | The loop issues exactly the draw calls of the layout specification `Layout`. |
| Pdf.LayoutTexts | storybook.py:133-140 | The drawn texts are, in reading order, every `split("\n")` piece of every segment, each stripped. |
| Pdf.PlaceSegmentsTexts | storybook.py:133-140 | Laying out segments appends exactly their stripped lines to what was drawn before. |
| Pdf.PlaceLinesTexts | storybook.py:135-140 | Laying out lines appends exactly those lines, stripped. |
| Pdf.TextsAppend | storybook.py:140 | The texts of two runs of draw calls concatenate. |
| Pdf.DocumentLinesCount | storybook.py:134 | A segment with N line breaks contributes N + 1 draw calls, so a non-empty history never gives an empty document body. |
| Pdf.StrippedAllLength | storybook.py:135-140 | One drawn line per piece. |
| Pdf.LayoutGeometry | storybook.py:132-142 | Every line is drawn at `80 <= y <= 712` on a page numbered from 1, the first at `y = 692` on page 1, and each later line follows its predecessor with the drop `Gaps` gives its position: on the same page that much lower, or, exactly when that would be below 80, at `y = 712` on the next page. |
| Pdf.LayoutSteps | storybook.py:133-142 | Line `j` of segment `i` (draw number `|DocumentLines(segments[..i])| + j`) is drawn 18 below the previous line when `j > 0` and 28 below it when it opens segment `i > 0`, on the same page; exactly when that would be below 80 it is drawn at 712 on the next page instead. |
| Pdf.GapsAt | storybook.py:133-142 | The drop before line `j` of segment `i` is 28 when `j == 0` and `i > 0`, and 18 otherwise: the segment gap falls only across segments. |
| Pdf.GapsLength | storybook.py:134-135 | There is one drop per drawn line. |
| Pdf.GapsOfLast | storybook.py:133-141 | The drops of the last segment's lines: 28 before its first line unless it is the only segment, 18 before each other line. |
| Pdf.GapsPrefix | storybook.py:133 | The drops of the first `n` segments are a prefix of the drops of all segments. |
| Pdf.PlaceSegmentsPlaced | storybook.py:133-142 | After every segment the lines drawn so far are placed with the drops of `Gaps`, and the cursor is 28 below the last line on its page (the line step plus line 142's segment gap). |
| Pdf.PlaceLinesPlaced | storybook.py:135-141 | The lines of a segment are placed: the first after the pending drop, each other one 18 below its predecessor or at the top of the next page, and the cursor ends 18 below the last line. |
| Pdf.PlaceLinePlaced | storybook.py:136-141 | One line, with its page break when `y < 80`, follows the last line with the pending drop and leaves the cursor 18 below it on its page. |
| Pdf.PlacedSnoc | storybook.py:140 | Appending a line within the margins that follows the last line with a given drop keeps the draws placed. |
| Pdf.PlaceLinesStep | storybook.py:136-141 | One pass of the inner loop (the page break when `y < 80`, the draw at `y`, then `y -= 18`) is `PlaceLine` applied to the lines so far. |
| Pdf.PlaceSegmentsStep | storybook.py:133-142 | One pass of the outer loop (the segment's lines, then `y -= 10`) is `PlaceSegments` of one more segment. |
| Pdf.PlaceLine | storybook.py:136-141 | One line: a new page at `y = 712` when `y < 80`, then `drawString(50, y, line.strip())` and `y -= 18`. |
| Pdf.PlaceLines | storybook.py:135-141 | The inner loop over the lines of one segment, as a left fold of `PlaceLine`. |
| Pdf.PlaceSegments | storybook.py:133-142 | The outer loop: each segment's `split("\n")` lines, then the 10-point segment gap. |
| Pdf.Layout | storybook.py:130-142 | Every body draw call, starting from page 1 at `y = height - 100 = 692`. |
| Text.Strip | storybook.py:140 | `line.strip()` results are a slice of the line with only whitespace cut from both ends, and the result neither begins nor ends with whitespace. |
| Text.Split | storybook.py:134 | `segment.split("\n")` gives at least one piece, and no piece contains a line break. |
| Text.JoinSplit | storybook.py:134 | Joining the pieces with `\n` gives the segment back. |
| Text.SplitCount | storybook.py:134 | There is one more piece than there are line breaks. |
| Text.SkipSpaces | storybook.py:88 | A greedy `\s*` stops at the first non-whitespace character or at the end. |
| Text.DigitsEnd | storybook.py:88 | A greedy `\d+` stops at the first non-digit or at the end. |
| Text.LineEnd | storybook.py:88 | `.*` without DOTALL stops at the first line break or at the end. |

## Left out

- The calls to OpenAI are left out: the chat completion (storybook.py:75-80), speech synthesis with its file write (95-103), and image generation with its warnings (106-123). They are network calls. The model output is a parameter: `storyOutput` of `Advance`, `s` of `ExtractChoices`. The prompt is modelled only up to the string that would be sent.
- Configuration and key loading (storybook.py:14-35) is left out. It is file and environment I/O.
- All Streamlit UI is left out: sidebar inputs, `st.write`, `st.radio`, the buttons, the history expander and the download button (storybook.py:37-48, 147-176, 184-199). `st.rerun()` (182) re-executes the script. In the model that re-execution is a later call to `Init`, which leaves an existing session unchanged.
- The export condition at storybook.py:190 is left out of `SaveStoryLayout`. The UI offers the PDF only when the history is non-empty. `SaveStoryLayout` itself accepts any history, as `save_story_pdf` does, and `DocumentLinesCount` shows that a non-empty history draws at least one line.
- reportlab is left out: the canvas, fonts, `showPage`, `save`, the file name, and the title line drawn at `height - 50` (storybook.py:127-131, 137-138, 143). Only the coordinate arithmetic and the text of each body line are kept. The x coordinate is always 50 and is not recorded.
- Text.IsDigit: Python's `\d` matches every Unicode decimal digit. The model uses `0`-`9`.
- Pdf.Layout: reportlab's page height is a float. It is treated as the integer 792, which it equals.
- Choices.ExtractChoices: the header test's capture group `choices_text` (storybook.py:86) is computed but never used, so it is not modelled. The optional third group of the header pattern cannot change whether the pattern matches, so it is not modelled either.
