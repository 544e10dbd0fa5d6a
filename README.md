# Trace quiz page — a Dafny model of its quiz logic

The quiz page (`static/js/app.js`) lets a learner pick a mode, loads that
mode's question bank, and walks through the questions: a *result* question
shows code and asks for its outcome; a *step-trace* question walks through
the code step by step, asking one question per step. Picking an option
disables all options, marks the pick correct or incorrect (and, after a wrong
pick, the first correct option), and shows a feedback panel whose button
leads to the next step or the next question. The code panel has font-size
buttons, and code text is HTML-escaped before it is put into markup.

This project models that logic:

- `html_escape.dfy` (module `HtmlEscape`): `escapeHtml` as the chain of five
  global replacements it is written as, the per-character escaping it amounts
  to, their equality, and what the escaping guarantees (no `<`, `>`, `"`, `'`
  survives; it distributes over concatenation; it is the identity on plain
  text; an unescaping function undoes it, so it is injective).
- `rendering.dfy` (module `Rendering`): the option labels
  `String.fromCharCode(97 + index)` as UTF-16 code units, `split('\n')` with
  an inverse the model defines (joining with line breaks, which the page never
  does), and the numbered, escaped code lines of a
  step-trace question, where an empty line becomes `&nbsp;`.
- `answers.dfy` (module `Answers`): `findIndex(o => o.isCorrect)`, the
  marking of the option buttons as a pure specification (`Feedback`) and as
  the in-place loop over the button array the page runs (`MarkAnswer`).
- `code_view.dfy` (module `CodeControls`): `adjustFontSize`, which clamps the
  font size to [10, 24] starting from 14, as a class with one field.
- `quiz.dfy` (module `Quiz`): the module-level state (`questions`,
  `currentQuestionIndex`, `currentStepIndex`) as the class `QuizSession`,
  with `startMode`, `renderQuestion`, `updateStepUI`, `nextStep`,
  `nextQuestion`, `checkAnswer` and `checkStepAnswer` as methods. Besides the
  three variables the class follows the parts of the page the logic depends
  on: which view is shown, the option buttons (an array), and the feedback
  panel's next button (by what its `onclick` runs). Its invariant `Valid()`
  ties the indices to the question list and the current question's steps,
  the button array to the options on screen, and the next button to the
  step routing; every operation the page exposes keeps it.

Behaviour of the page worth noting:

- Only the modes `result` and `step-trace` have a data file; a `trace-table`
  request returns at once and changes nothing (there is no trace-table engine
  in the page).
- `startMode` assigns the fetched list to `questions` *before* testing it for
  emptiness, so an empty bank does replace `questions`. While the mode
  selection is visible `questions` is already empty, so this is not
  observable; `Valid()` carries that fact.
- The completion view is shown as soon as the incremented index *equals* the
  number of questions.
- Only code text is escaped; question titles, option texts and explanations
  are inserted into markup as they are.

## Model

| member | source | states |
|---|---|---|
| HtmlEscape.ReplaceAll | static/js/app.js:291-295 | a global single-character replace with a non-empty replacement never shortens the text |
| HtmlEscape.ReplaceAllRemovesTarget | static/js/app.js:291-295 | after one global single-character replace whose replacement lacks the target, no occurrence of the target is left |
| HtmlEscape.ReplaceAllAbsent | static/js/app.js:291-295 | a global single-character replace returns text without the target unchanged |
| HtmlEscape.ReplaceAllOne | static/js/app.js:291-295 | on a single character a global replace gives the replacement if it is the target, else the character |
| HtmlEscape.ReplaceAllConcat | static/js/app.js:291-295 | a global single-character replace distributes over concatenation |
| HtmlEscape.EscapeChain | static/js/app.js:289-296 | `escapeHtml` as written, five global replaces with `&` first, never shortens the text; EscapeChainIsEscapeHtml shows it is the per-character escaping |
| HtmlEscape.EscapeChainConcat | static/js/app.js:290-295 | the whole five-step replace chain distributes over concatenation |
| HtmlEscape.EscapeChainOneChar | static/js/app.js:290-295 | on one character the replace chain yields that character's reference (`&amp;`, `&lt;`, `&gt;`, `&quot;`, `&#039;`) or the character itself |
| HtmlEscape.EscapeChainIsEscapeHtml | static/js/app.js:289-296 | the replace chain as written equals the per-character escaping: because `&` goes first, no character is rewritten twice |
| HtmlEscape.ReferencesHaveNoMarkup | static/js/app.js:291-295 | none of the five replacement texts contains `<`, `>`, `"` or `'` |
| HtmlEscape.EscapeCharSafe | static/js/app.js:291-295 | no character escapes to text containing `<`, `>`, `"` or `'`, nor to the empty text |
| HtmlEscape.EscapeHtml | static/js/app.js:289-296 | the escaped text contains no `<`, `>`, `"` or `'` and is never shorter than the input |
| HtmlEscape.EscapeHtmlConcat | static/js/app.js:289-296 | escaping distributes over concatenation |
| HtmlEscape.EscapeHtmlPlainText | static/js/app.js:290-295 | text without `&`, `<`, `>`, `"`, `'` is left unchanged |
| HtmlEscape.EscapeHtmlEmpty | static/js/app.js:289-296 | the escaped text is empty exactly when the text is |
| HtmlEscape.UnescapeEscapeHtml | static/js/app.js:289-296 | decoding the five references in escaped text gives the original text back |
| HtmlEscape.EscapeHtmlInjective | static/js/app.js:289-296 | two texts that escape to the same markup are equal |
| Rendering.OptionLabel | static/js/app.js:103 | the label of an option below 26 is a letter `a` to `z`; below 2^16 - 97 the label is the code unit 97 + index, with no wrap-around |
| Rendering.OptionLabels | static/js/app.js:101-105 | one label per option; the first 26 are the letters `a` to `z`; labels of any two options less than 2^16 apart differ |
| Rendering.SplitLines | static/js/app.js:117 | splitting at line breaks gives at least one line and no line contains a break |
| Rendering.JoinSplitLines | static/js/app.js:117 | joining the split lines with line breaks gives the code back |
| Rendering.SplitLinesSingle | static/js/app.js:117 | a text without a break splits into itself alone |
| Rendering.SplitLinesBreak | static/js/app.js:117 | a break ends the first line; the rest splits on its own |
| Rendering.SplitJoinLines | static/js/app.js:117 | lines without breaks survive joining and splitting again |
| Rendering.LineHtml | static/js/app.js:119 | a line's markup is never empty: the empty line becomes `&nbsp;`, any other line its escaped text |
| Rendering.CodeLines | static/js/app.js:117-120 | one rendered line per code line, numbered from 1 consecutively, never with empty markup |
| Rendering.EscapeHtmlNeverPlaceholder | static/js/app.js:119 | no line escapes to the `&nbsp;` placeholder itself |
| Rendering.LineHtmlDecodes | static/js/app.js:119 | a line's markup is `&nbsp;` exactly when the line is empty, and otherwise decodes back to the line |
| Rendering.CodeLinesDecode | static/js/app.js:117-120 | every rendered line stands for the code line with the same index: placeholder iff empty, else decodes to it |
| Answers.FindIndex | static/js/app.js:253 | -1 exactly when no option is correct; otherwise a correct option with no correct option before it |
| Answers.Feedback | static/js/app.js:239-257 | after a pick every option is disabled; a correct pick marks only the pick correct and nothing incorrect; a wrong pick marks only the pick incorrect and exactly the first correct option correct; with no correct option nothing is marked correct; no button gets both marks |
| Answers.AddMarks | static/js/app.js:204-214 | setting `disabled` and adding the `correct`/`incorrect` classes only ever switches flags on, keeps every flag already on, and turns a fresh button into exactly the marks |
| Answers.MarkAnswer | static/js/app.js:201-215 | the in-place loop over the buttons leaves each button with its old state plus the marks of `Feedback` (disabled, `correct`, `incorrect` only ever added) |
| CodeControls.ClampFontSize | static/js/app.js:191 | the new size lies in [10, 24]; a size within the bounds is kept, one below becomes 10, one above becomes 24 |
| CodeControls.FontSizeReachableInBounds | static/js/app.js:188-191 | from the initial 14, every sequence of adjustments leaves the size in [10, 24] |
| CodeControls.AtBoundStays | static/js/app.js:191 | a size at a bound pushed past it stays at that bound |
| CodeControls.AdjustUndo | static/js/app.js:181-182 | an adjustment that stays within the bounds is undone by the opposite adjustment |
| CodeControls.CodeView.constructor | static/js/app.js:188 | the font size starts at 14, within the bounds |
| CodeControls.CodeView.AdjustFontSize | static/js/app.js:189-193 | the size becomes the clamped sum and stays within [10, 24]; at a bound, pushing past it changes nothing |
| Quiz.DataFile | static/js/app.js:29-37 | a data file exists exactly for the modes `result` and `step-trace`, namely `./data/questions_qa.json` and `./data/questions_trace.json` |
| Quiz.ScreenFor | static/js/app.js:76-80 | a question is shown as a result question exactly when its type tag is not `step-trace`; a step-trace question shows its first step when it has steps and halts with an empty question section when it has none |
| Quiz.StepRoute | static/js/app.js:219-226 | for a step that exists, the feedback button leads to the next question exactly at the last step and to the next step exactly when a later step exists |
| Quiz.QuizSession.constructor | static/js/app.js:6-9 | no questions, both indices 0, mode selection shown |
| Quiz.QuizSession.RenderOptions | static/js/app.js:100-108 | the option grid is replaced by one fresh, enabled, unmarked button per option and the feedback panel is gone |
| Quiz.QuizSession.StartMode | static/js/app.js:28-59 | an unmapped mode or a falsy body changes nothing; a failed fetch shows the error panel and leaves the variables; an empty bank leaves the state as it was; otherwise the bank is installed, the question index is 0 and the first question is rendered |
| Quiz.QuizSession.RenderQuestion | static/js/app.js:62-81 | with questions: step index reset to 0 and the view chosen by whether the type tag is `step-trace`; with none: the no-questions view and the step index untouched |
| Quiz.QuizSession.UpdateStepUI | static/js/app.js:141-170 | shows the current step with fresh buttons for its options; a step-trace question without steps halts with an empty question section |
| Quiz.QuizSession.NextStep | static/js/app.js:233-236 | the step index goes up by exactly one and the new step is shown with fresh buttons |
| Quiz.QuizSession.NextQuestion | static/js/app.js:272-286 | the question index goes up by exactly one; the next question is rendered iff the new index is below the number of questions, otherwise the completion view is shown and the step index is untouched |
| Quiz.QuizSession.CheckAnswer | static/js/app.js:239-269 | the result question's buttons become exactly `Feedback` of its options and the pick; the panel leads to the next question |
| Quiz.QuizSession.CheckStepAnswer | static/js/app.js:201-230 | the step's buttons become exactly `Feedback` of the step's options and the pick; the panel leads to the next question iff this is the last step |
| Quiz.QuizSession.PressNext | static/js/app.js:221-229 | following the feedback button keeps the invariant: the step index stays below the step count, a next step adds one to it, a next question adds one to the question index, which never passes the number of questions, and the completion view appears exactly when it reaches it; before that the step index is reset to 0 and the next question's view is shown, and at it the step index is left as it was |
| Quiz.OneStepQuizRun | static/js/app.js:28-59 | the operations compose into a whole session: with a bank of one step-trace question of one step, starting the mode, answering and following the feedback button reaches the completion view with the question index at 1 |

## Left out

- Fetching and parsing a question bank (`fetchQuestions`): the outcome is a parameter of `StartMode` (failed request, falsy JSON body, or a list of questions); JSON that is not a list of well-formed questions is not modelled.
- All markup and DOM work: the HTML templates, `classList`, `scrollIntoView` and the active-line highlight, `alert`, `location.reload`, the display toggles of the mode selection and the quiz container, and `toggleWrap`'s CSS class toggle; the model keeps only which view is shown, the option buttons' `disabled` and marking classes, and the next button's target.
- Question titles, question texts, explanations and the correct/incorrect headline: text shown to the learner with no effect on the logic.
- Concurrency: `startMode` is asynchronous; two mode clicks whose fetches overlap are not modelled.
- The option buttons are an array of values, not DOM objects; a button's `isCorrect` argument is taken to be the `isCorrect` of its option, as the template renders it.
- `allQuestions` (static/js/app.js:6) is declared and never used.
- static/js/subject_a.js (song list and audio playback) and static/js/top.js ("coming soon" alerts): user interface only.
- The trace-table puzzle (piece placement, shuffling, drag and touch handling, row validation): no code for it exists in the page, and its mode has no data file.
- Quiz.QuizSession.NextStep: requires that a later step exists, because its only caller is the button checkStepAnswer offers exactly then; calling it past the last step raises a TypeError, which is not modelled.
- Quiz.QuizSession.StartMode: requires the mode selection to be visible, because its buttons live there and are hidden once a quiz starts.
- Quiz.QuizSession.CheckAnswer: requires the clicked button to be enabled, because a disabled button cannot be clicked.
- Quiz.QuizSession.CheckStepAnswer: requires the clicked button to be enabled, for the same reason.
- Text is a sequence of Unicode scalar values (`string`), while JavaScript strings are sequences of UTF-16 code units: lone surrogates cannot be represented. Every character `escapeHtml` and `split('\n')` look for is ASCII, so neither loses anything; OptionLabel is the one place that works with code units.
- CodeControls.CodeView.AdjustFontSize: JavaScript numbers are modelled as unbounded integers; the page only ever passes -2 and 2.
