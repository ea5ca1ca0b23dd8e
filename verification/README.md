# GIFT parser error reporting, modelled in Dafny

The GIFT parser splits a quiz document into sections and parses each one with
a generated parser. That parser stops at the first syntax error. The error
path in `src/parser/handleErrors.ts` gets more errors out of it by error
recovery:

- escape the character the last error reports (a backslash before it, or
  after it for a newline);
- parse the escaped text again and collect the next error;
- repeat up to fifty times.

After recovery, two corrections run on every collected error:

- the token correction takes out the drift that the inserted backslashes
  cause in offsets and columns;
- the section correction moves section coordinates into document
  coordinates.

`src/message/index.ts` carries a second copy of the two corrections, which
works on plain error records.

The model has seven modules:

- `Types` (`types.dfy`): errors, positions, the parser's result pair and
  sections. It also defines `Outcome`, which records whether a call returns,
  throws (with one of the two messages the code throws), or never returns.
- `Coordinates` (`coordinates.dfy`):
  - the same-line counter `RunCount`, which both correction passes keep;
  - `SplitLines`, the line split;
  - `LineShift`, the offset shift;
  - `Undrifted` and `Shifted`, the two relations a corrected error has to
    the error it came from.
- `TokenEscape` (`token_escape.dfy`): `findToken`, `escapeToken` and
  `token`.
- `Correction` (`correction.dfy`): `correctToken`, `correctError`,
  `correctMessage` and their helpers.
- `Recovery` (`recovery.dfy`): `findErrors`, `handleSingleError` and
  `handleErrors`.
- `Message` (`message.dfy`): everything in `src/message/index.ts`.
- `Agreement` (`agreement.dfy`) relates the two copies of the corrections.

Where the code updates variables step by step, the model is a method with a
loop. Each such method is proved equal to a specification function, and the
lemmas are proved about that function. The methods are:

- `findToken`'s search;
- `correctToken`'s and `correctTokenMessages`' counter;
- `findErrors`' recovery loop;
- `handleErrors`' section loop.

The generated parser is a parameter `parse` of type `string -> ParseResult`.

The recovery function `Recover` takes the escaping step as a parameter.
`findErrors` passes `Token`, and the lemmas about `Token` (`TokenInserts`,
`TokenHaltsWhenPointed`) discharge what the recovery lemmas assume of that
step.

Where the code and the comments around it disagree, the model follows the
code:

- **Neighbour search.** `findToken`'s comment promises to look at the
  characters before and after the reported offset. Its loop never moves its
  cursors, so only `text[location]` is ever compared. When that character is
  not the reported one, the loop runs forever. `FindToken` returns
  `Diverges` in that case (`NeighbourIsNotSearched`), and the divergence
  propagates through `findErrors`, `handleSingleError` and `handleErrors`.
- **Offset shift.** The section correction adds one entry of the per-line
  length table: the length of line `start - 2` plus the line-ending length.
  It is not a running sum over the lines before the section. `LineShift`
  adds that single entry.

The two copies of the drift correction also differ from each other in one
place. `correctToken` starts its same-line counter with line `-1` remembered
(src/parser/handleErrors.ts:237). `correctTokenMessages` starts with nothing
remembered (src/message/index.ts:52). The two passes agree unless the first
error starts on line `-1` (`DriftCorrectionsAgree`, `DriftCorrectionsDiffer`).

## Model

| member | source | states |
|---|---|---|
| `Coordinates.RunCountIsRunLength` | src/message/index.ts:51-64 | With nothing remembered at the start, the same-line counter after error `k` is the number of errors just before `k` that share its start line. All of them share it. The error before them, if any, does not. |
| `Coordinates.RunCountIgnoresUnmatchedInitial` | src/parser/handleErrors.ts:236-252 | Starting the counter with line -1 remembered changes nothing when the first error does not start on line -1. |
| `Coordinates.SplitLines` | src/parser/handleErrors.ts:205-207 | Splitting on `\n` gives at least one line, and no line contains a newline. |
| `Coordinates.JoinSplitLines` | src/parser/handleErrors.ts:205-207 | Joining the split lines with `\n` gives the text back. |
| `Coordinates.LineShift` | src/parser/handleErrors.ts:205-210 | The offset shift is never negative. When line `start - 2` exists, the shift is that line's length plus the line-ending length. Otherwise it is 0. |
| `TokenEscape.FindToken` | src/parser/handleErrors.ts:106-141 | The loop agrees with `Located`. It returns only the reported offset, and only when the reported character stands there. It throws exactly on a null token or an offset outside the text. |
| `TokenEscape.EscapeToken` | src/parser/handleErrors.ts:150-178 | Never diverges, and every failure is "No Token Found.". It succeeds exactly when the offset is inside the text, the character is one of `: ~ = # { } \n`, and that character is not already escaped. On success it inserts one backslash: after a newline, before any other token, keeping the rest of the text. |
| `TokenEscape.EscapeIsNotRepeated` | src/parser/handleErrors.ts:157-176 | Escaping the same token again throws. |
| `TokenEscape.Token` | src/parser/handleErrors.ts:94-99 | When `token` returns, its result is the text with exactly one backslash inserted. |
| `TokenEscape.TokenOutcomes` | src/parser/handleErrors.ts:94-141 | `token` diverges exactly when the offset is inside the text and the character there is not the reported one. It throws "Token is Null." on a null character. |
| `TokenEscape.ColonExample` | src/parser/handleErrors.ts:94-175 | A colon reported at offset 7 of `Q1 ~ A : B` is escaped to `Q1 ~ A \: B`. |
| `TokenEscape.NeighbourIsNotSearched` | src/parser/handleErrors.ts:100-141 | A token one place after the reported offset is not found, and the search never ends. |
| `Correction.AddError` | src/parser/handleErrors.ts:265-291 | For every delta: adds it to both lines, offsets and columns, and keeps the found character. With a zero column delta this is a `Shifted` move. |
| `Correction.AddErrorInverse` | src/parser/handleErrors.ts:265-291 | Adding the negated delta undoes `addError`. |
| `Correction.RemoveOffset` | src/parser/handleErrors.ts:293-311 | Takes `number` off both offsets and changes nothing else. |
| `Correction.RemoveColumn` | src/parser/handleErrors.ts:313-331 | Takes `number` off both columns and changes nothing else. |
| `Correction.RemoveColumnStart` | src/parser/handleErrors.ts:333-347 | Takes `number` off the start column only. |
| `Correction.CorrectItem` | src/parser/handleErrors.ts:247-257 | Error `k`'s offsets lose `k`. Its columns lose the same-line count, only at the start for an error that spans lines. |
| `Correction.TokenCorrected` | src/parser/handleErrors.ts:235-263 | A section that did not fail is returned unchanged. On a failed section, the list length is kept and each error stands in the `Undrifted` relation to its original, with the counter started at line -1. |
| `Correction.CorrectToken` | src/parser/handleErrors.ts:235-263 | The walk over the errors with the `iter` record computes `TokenCorrected`. |
| `Correction.CorrectError` | src/parser/handleErrors.ts:197-233 | A section that did not fail is returned unchanged. On a failed section, every error moves down by `start - 1` lines and along by `LineShift`, and keeps its columns and found character. |
| `Correction.CorrectMessage` | src/parser/handleErrors.ts:189-195 | Gives the combined effect of both corrections on each error: lines, offsets and columns, in terms of the original error. |
| `Recovery.RecoverPrefix` | src/parser/handleErrors.ts:64-85 | The stack of texts only grows, keeps what it started with, and gains at most one text per iteration. |
| `Recovery.RecoverStack` | src/parser/handleErrors.ts:70-85 | With a step that inserts one backslash, each pushed text is the text before it with one backslash inserted. |
| `Recovery.RecoverErrors` | src/parser/handleErrors.ts:65-85 | Errors are never dropped or reordered. The result is the starting errors followed by what each parse of a pushed text reported, in stack order. |
| `Recovery.RecoverContinuesWhileFailing` | src/parser/handleErrors.ts:77-84 | The loop goes on only while re-parses fail: every pushed text except the last was reported with errors, so a clean re-parse ends the loop. |
| `Recovery.RecoverStopsOnlyWhen` | src/parser/handleErrors.ts:67-86 | The converse: the loop stops with budget left and a failing last re-parse only when the error list is empty or the step threw on the last text and error; it hangs only when that step never returns. |
| `Recovery.RecoverRunsFullBudget` | src/parser/handleErrors.ts:70-85 | With a parser that always fails and a step that always returns, the loop parses exactly `budget` new texts and ends. |
| `Recovery.TokenInserts` | src/parser/handleErrors.ts:94-99 | `token` is a step that inserts one backslash. |
| `Recovery.TokenHaltsWhenPointed` | src/parser/handleErrors.ts:106-141 | `token` always ends on an error whose character stands at its offset. |
| `Recovery.RecoverEndsWithFaithfulParser` | src/parser/handleErrors.ts:67-86 | Recovery never hangs when all of these hold: the parser reports at least one error whenever it fails; those errors point at their characters; the starting error does too. |
| `Recovery.FoundErrors` | src/parser/handleErrors.ts:52-92 | `findErrors` never throws. It returns a section without an error list unchanged. Otherwise, when it returns, it keeps the location, marks the section failed, and keeps the original errors as a prefix. |
| `Recovery.FindErrors` | src/parser/handleErrors.ts:52-92 | The `while` loop with its `try`/`catch` computes `FoundErrors`. |
| `Recovery.FoundErrorsRun` | src/parser/handleErrors.ts:52-92 | Recovery parses at most fifty texts beyond the section text. Each text is one character longer than the one before. The errors are the originals followed by the reports. Every re-parse before the last failed. `findErrors` returns exactly when no step hangs. |
| `Recovery.FoundErrorsEnds` | src/parser/handleErrors.ts:52-92 | When the parser is faithful and the last error points into the section text, `findErrors` returns. |
| `Recovery.ColonRoundTrip` | src/parser/handleErrors.ts:64-85 | On `Q1 ~ A : B` with the colon reported at offset 7, the escaped text is pushed. If parsing it is clean, the section keeps its single error. |
| `Recovery.HandleSingleError` | src/parser/handleErrors.ts:29-49 | Never throws. It returns unchanged a section that has no error list or has other than exactly one error. A section with one error comes out failed with at least one error. That first error keeps its found character and its lines move into the document. |
| `Recovery.KeptAppend` | src/parser/handleErrors.ts:19-24 | Filtering out the blank sections distributes over concatenation, so the order is kept. |
| `Recovery.KeptMembers` | src/parser/handleErrors.ts:19-24 | A section is kept exactly when it is in the input and its text is not blank. |
| `Recovery.HandledWithKept` | src/parser/handleErrors.ts:19-26 | For a handler that never throws, the loop diverges exactly when the handler diverges on a kept section. Otherwise it returns one handled section per kept section, in order. |
| `Recovery.HandledWithPrefix` | src/parser/handleErrors.ts:19-24 | Once the loop stops without a value, later sections change nothing. |
| `Recovery.HandleErrors` | src/parser/handleErrors.ts:11-27 | The `for...of` loop computes `HandledWith` for `handleSingleError` over the sections. |
| `Recovery.HandleErrorsKeepsOrder` | src/parser/handleErrors.ts:11-27 | `handleErrors` never throws. It diverges exactly when `handleSingleError` diverges on a non-blank section. Otherwise it returns the handled non-blank sections, one each, in order. |
| `Message.IncrementError` | src/message/index.ts:82-108 | Moves both lines, offsets and columns by the delta, and keeps the found character. |
| `Message.IncrementColumnError` | src/message/index.ts:110-128 | Moves both columns by `number`, and nothing else. |
| `Message.IncrementOffsetError` | src/message/index.ts:130-148 | Moves both offsets by `number`, and nothing else. |
| `Message.IncrementLineError` | src/message/index.ts:150-168 | Moves both lines by `number`, and nothing else. |
| `Message.RemoveOffsetError` | src/message/index.ts:170-188 | Moves both offsets back by `number`, and nothing else. |
| `Message.RemoveLineError` | src/message/index.ts:190-208 | Moves both lines back by `number`, and nothing else. |
| `Message.RemoveColumnError` | src/message/index.ts:210-228 | Moves both columns back by `number`, and nothing else. |
| `Message.RemoveColumnStartError` | src/message/index.ts:230-244 | Moves the start column back by `number` and leaves the end as it was. |
| `Message.IncrementDecomposes` | src/message/index.ts:82-168 | `incrementError` is the column, offset and line increments applied one after another. |
| `Message.RemoveUndoesIncrement` | src/message/index.ts:110-228 | Each remove helper undoes its increment helper, in both orders. |
| `Message.CorrectTextSplitMessages` | src/message/index.ts:22-48 | Keeps the start line and the list length. Every error is `Shifted` by `start - 1` lines and `LineShift`, whatever the section's result. |
| `Message.TokenMessagesCorrected` | src/message/index.ts:50-80 | Keeps the start line and the list length. Each error stands in the `Undrifted` relation to its original, with the counter started with nothing remembered. |
| `Message.CorrectedAt` | src/message/index.ts:56-74 | The map callback for error `k` leaves it `Undrifted` by `k` and the same-line count. |
| `Message.ColumnDropIsRun` | src/message/index.ts:50-80 | The start column an error loses equals the number of errors just before it on the same start line. |
| `Message.CorrectTokenMessages` | src/message/index.ts:50-80 | The walk over the errors with the `iterators` record computes `TokenMessagesCorrected`. |
| `Message.CorrectedMessages` | src/message/index.ts:13-20 | Gives the combined effect of both corrections on each error: lines, offsets and columns, in terms of the original error. |
| `Agreement.HelpersAgree` | src/parser/handleErrors.ts:265-347 | `addError`, `removeOffset`, `removeColumn` and `removeColumnStart` compute the same errors as their counterparts in `src/message/index.ts`. |
| `Agreement.SectionShiftsAgree` | src/message/index.ts:22-48 | On a failed section, `correctTextSplitMessages` and `correctError` produce the same errors. |
| `Agreement.DriftCorrectionsAgree` | src/message/index.ts:50-80 | `correctTokenMessages` and `correctToken` produce the same errors unless the first error starts on line -1. |
| `Agreement.MessagesAgree` | src/message/index.ts:13-20 | `message` and `correctMessage` produce the same errors on such sections. |
| `Agreement.DriftCorrectionsDiffer` | src/parser/handleErrors.ts:236-252 | A first error on line -1 loses a column in `correctToken` but not in `correctTokenMessages`. |

## Left out

- The grammar of the generated parser (`./GIFTParser`): it is the parameter
  `parse`. Beyond being total, nothing is assumed about it except in the
  lemmas that say so (`Faithful`).
- `parse` is total: a parser that throws (swallowed at
  src/parser/handleErrors.ts:86, after the push at :75) or never returns is
  not modelled.
- Parsed questions: `Question` is an opaque type, because the error path
  never looks inside one.
- `../types`: it is not part of this model beyond the fields the error path
  reads and writes.
- String indexing and `length` are by UTF-16 code unit in the source. The
  model indexes a `seq<char>`, so texts with characters outside the Basic
  Multilingual Plane are not modelled.
- Regular expressions: `/^\s*$/` is modelled by `IsBlank` over JavaScript's
  `\s` character set. No other regular expression is used.
- A JavaScript `TypeError`, for example from reading a field of the last
  error when the error list is empty, is treated like any other throw. Inside
  `findErrors` it is caught, which is the only place it can occur.
- Non-termination is a value (`Diverges`) rather than a loop that never
  ends. `FindToken` returns it on its second pass over unchanged cursors.
- `FindToken`: the search comment's promise to look at the neighbouring
  characters is not modelled, because the code never looks at them.
- The test files and their JSON mocks are not part of this model.
