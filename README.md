# QR validator: CSV membership registry

This project models the logic of the `QRValidator` React component (`app.js`). The component
fetches a CSV file of valid product numbers and parses it into a set. It then tells the user
whether a number (typed in, or passed in the page's `number` query parameter after scanning a QR
code) is in that set.

What is modelled:

- `Text`: the JavaScript string built-ins the component relies on. `String.prototype.trim` is
  `Trim`, built from `TrimStart` and `TrimEnd` over the ECMAScript WhiteSpace and LineTerminator
  code points (`IsWs`). `String.prototype.split` with a one-character separator is `Split`, and
  its inverse is `Join`.
- `Registry`: the parse loop of `loadCSVFromGitHub` and the lookup of `checkNumber`.
  - Line 0 is always skipped as the header.
  - Every other line is trimmed, and skipped if empty.
  - The first column (`split(/[,;]/)[0]`, modelled as `FirstField`) is trimmed and added to the
    set if non-empty.
  - `Parse`, `NumbersOf` and `Collect` are the specification. `ParseCsv` is the loop that builds
    the set, proved equal to `Parse`.
  - `IsListed` is `validNumbers.has(number.trim())`.
- `QrValidator`: the component's state as the class `Validator`. Its fields are `validNumbers`,
  `searchNumber`, `result`, `loading` and `error`. Its methods are:
  - the steps of a load (`BeginLoad`, `FinishLoad`, `Load`);
  - `CheckNumber`, `HandleSearch`, and the input field's `onChange` (`EditSearch`);
  - the effect that checks the query-parameter number (`AutoCheck`).

  The fetch itself is an input value, `FetchOutcome`: `Fetched(text)` for an ok response's body,
  or `FetchFailed`. The query parameter is an input `Option<string>`.
- `ParseExamples`: three worked example files, each proved to parse to the expected set, plus
  lookups against the first one.

Three facts about the code shape the model of loading:

- The auto-check effect is keyed on `validNumbers` (app.js:29). Each successful load installs a
  new `Set` (app.js:44, 58), so the effect runs after every successful load whose set is
  non-empty. `Load` models it that way.
- A successful load does not touch `error` after the fetch (app.js:58-59). The error is cleared
  at the start of every load (app.js:33), in `BeginLoad`.
- Nothing guards against overlapping loads: a second `loadCSVFromGitHub` may start while one is
  running, and each applies its own outcome. The model runs one load at a time.

## Model

| member | source | states |
|---|---|---|
| `Text.Trim` | app.js:48 | `s.trim()`, defined as dropping leading then trailing whitespace; what it promises is stated by `Text.TrimSpec` and `Text.TrimCharacterization` |
| `Text.TrimStartSpec` | app.js:48 | the result of dropping leading whitespace is a suffix of the input; everything dropped is whitespace; the result is empty or starts with non-whitespace |
| `Text.TrimEndSpec` | app.js:48 | the result of dropping trailing whitespace is a prefix of the input; everything dropped is whitespace; the result is empty or ends with non-whitespace |
| `Text.TrimSpec` | app.js:48 | `trim` leaves no whitespace at either end, is empty exactly when the input is all whitespace, and keeps only code points of the input |
| `Text.TrimOfTrimmed` | app.js:51 | a string with no whitespace at either end is its own trim |
| `Text.TrimIdempotent` | app.js:51 | trimming twice is the same as trimming once |
| `Text.TrimStartPadding` | app.js:48 | leading whitespace added in front does not change the start-trimmed value |
| `Text.TrimEndPadding` | app.js:48 | trailing whitespace added at the end does not change the end-trimmed value |
| `Text.TrimPadding` | app.js:48 | whitespace added at either end (such as the `\r` of a CRLF line) does not change the trimmed value |
| `Text.TrimCharacterization` | app.js:48 | trimming whitespace-padding around a trimmed string gives exactly that string, so the contract determines `trim` |
| `Text.Split` | app.js:43 | `split('\n')` yields at least one piece, no piece contains the separator, and joining the pieces gives the text back |
| `Text.SplitWithoutSep` | app.js:43 | text without the separator splits into itself alone |
| `Text.SplitPrepend` | app.js:43 | a first line followed by `\n` becomes the first piece, and the rest splits on its own |
| `Text.SplitOfJoin` | app.js:43 | splitting joined lines that contain no `\n` gives back exactly those lines |
| `Registry.FirstField` | app.js:51 | the first column is a prefix of the line with no `,` or `;`, ending at the first delimiter or at the end of the line |
| `Registry.FirstFieldAt` | app.js:51 | the first column is exactly the text before the first delimiter, whatever follows it |
| `Registry.FirstFieldWhole` | app.js:51 | a line without delimiters is its own first column |
| `Registry.LineNumber` | app.js:48-54 | the number one data line adds, if any; stated by `Registry.LineNumberSpec` |
| `Registry.Collect` | app.js:47-55 | the set built from the data lines, one line added after the other; stated by `Registry.CollectMembers` and `Registry.CollectSameLines` |
| `Registry.NumbersOf` | app.js:47-56 | the set of a file's lines, line 0 skipped; stated by `Registry.NumbersOfMembers` and `Registry.HeaderIgnored` |
| `Registry.Parse` | app.js:43-56 | the set of the fetched text split on `\n`; stated by `Registry.ParseCsv`, `Registry.ParsedAreIdentifiers` and `Registry.ParseIgnoresHeader` |
| `Registry.IsListed` | app.js:70 | `validNumbers.has(number.trim())`; stated by `Registry.ListedInParse` and `Registry.ListedIgnoresPadding` |
| `Registry.LineNumberSpec` | app.js:48-54 | a data line yields a number exactly when its trimmed first column is non-empty; what it yields is non-empty, trimmed and delimiter-free |
| `Registry.ParseCsv` | app.js:43-56 | the loop builds exactly the specified set of the text, and every element is an identifier |
| `Registry.CollectMembers` | app.js:47-55 | a number is collected exactly when some data line yields it |
| `Registry.NumbersOfByLine` | app.js:47-55 | a number is in the set of a file exactly when some line at index 1 or later yields it |
| `Registry.NumbersOfMembers` | app.js:47-55 | `t` is in the set exactly when `t` is non-empty and some line at index 1 or later is non-empty once trimmed and has trimmed first column `t` |
| `Registry.CollectedAreIdentifiers` | app.js:51-53 | every collected element is non-empty, its own trim, and free of `,` and `;` |
| `Registry.ParsedAreIdentifiers` | app.js:51-53 | every element of the parsed set is non-empty, equal to its own trim, and contains neither `,` nor `;` |
| `Registry.HeaderIgnored` | app.js:47 | replacing line 0 by any other line leaves the set unchanged |
| `Registry.ParseIgnoresHeader` | app.js:43-47 | whatever the first line of the text is, the set is that of the lines after it |
| `Registry.HeaderOnly` | app.js:43-49 | text that is only a header line, with or without a final newline, gives the empty set |
| `Registry.BlankLineContributesNothing` | app.js:48-49 | a whitespace-only line adds nothing |
| `Registry.WholeLineWithoutDelimiter` | app.js:51-53 | a non-blank line without delimiter adds its whole trimmed content |
| `Registry.CarriageReturnIgnored` | app.js:48 | a trailing `\r` does not change what a line adds |
| `Registry.CollectAppend` | app.js:44-53 | collecting two runs of lines gives the union of their sets |
| `Registry.CollectSameLines` | app.js:44-53 | two runs with the same lines, in any order and with any repetition, give the same set |
| `Registry.DuplicateLineIgnored` | app.js:53 | repeating a line adds nothing |
| `Registry.ReorderedLinesSameSet` | app.js:47-53 | a permutation of the data lines gives the same set |
| `Registry.ParseSameLines` | app.js:43-53 | two files with the same header and the same set of data lines parse to the same set |
| `Registry.NothingListedInEmpty` | app.js:70 | with an empty set every lookup is false |
| `Registry.ListedIgnoresPadding` | app.js:70 | whitespace around the candidate does not change the lookup |
| `Registry.ListedInParse` | app.js:47-70 | against a parsed file a candidate is valid exactly when some data line yields its trimmed value |
| `Registry.BlankNeverListed` | app.js:70 | a blank candidate is never valid against a parsed file |
| `QrValidator.Validator.constructor` | app.js:5-9 | the initial state: empty set, empty search text, no result, loading, no error |
| `QrValidator.Validator.BeginLoad` | app.js:32-33 | loading is set and the error cleared; nothing else changes |
| `QrValidator.Validator.FinishLoad` | app.js:36-65 | success replaces the set by the parse of the text; failure keeps the old set and stores the error message; loading ends either way; the search text and result are untouched |
| `QrValidator.Validator.CheckNumber` | app.js:69-75 | the result records the untrimmed number and whether its trim is in the set; a blank number is never valid; the state invariant is kept |
| `QrValidator.Validator.HandleSearch` | app.js:77-81 | a blank search text leaves the result unchanged; otherwise it is checked as `CheckNumber` would |
| `QrValidator.Validator.EditSearch` | app.js:139-140 | the typed text becomes the search text |
| `QrValidator.Validator.AutoCheck` | app.js:20-29 | with a non-empty set and a non-empty `number` parameter, the parameter becomes the search text and is checked; otherwise nothing changes |
| `QrValidator.Validator.Load` | app.js:20-66 | the whole load: on failure only `loading` and `error` change; on success the set is the parse of the text, `error` is null, and the parameter check runs when the new set is non-empty |
| `ParseExamples.MixedDelimiters` | app.js:43-56 | `"id\n123,ACME\n456;Other\n 789 ,X\n"` parses to `{"123", "456", "789"}` |
| `ParseExamples.MixedDelimitersLookups` | app.js:69-70 | against that file `"123"` and `" 123 "` are valid and `"999"` is not |
| `ParseExamples.BlankAndSingleColumnRows` | app.js:43-56 | `"h\n111\n\n222,extra\n"` parses to `{"111", "222"}` |
| `ParseExamples.HeaderOnlyFile` | app.js:43-56 | `"header only line\n"` parses to the empty set, and every lookup against it is false |

## Left out

- The network fetch, `response.ok` and `response.text()` (app.js:36-42). They are replaced by the
  input `FetchOutcome`. A response that is not ok and a thrown error both reach the same `catch`
  branch, so both are `FetchFailed`.
- `console.error` (app.js:64): diagnostics only.
- `window.location` and `URLSearchParams` (app.js:22-23). The `number` parameter is an
  `Option<string>` input to `AutoCheck` and `Load`.
- All JSX rendering (app.js:89-210), including which screen is shown for `loading`, `error` and
  the result. `handleKeyPress` (app.js:83-87) only calls `handleSearch` on Enter, which is
  `HandleSearch`.
- React's scheduling of hooks and re-renders. `Load` runs the steps of one load, and the effect
  after it, in sequence. Overlapping loads are not modelled: the code has no guard against them.
- Strings are sequences of Unicode code points, not UTF-16 code units, so lone surrogates cannot
  be represented. `IsWs` lists the WhiteSpace and LineTerminator code points of current Unicode.
