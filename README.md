# Sentry envelope formatter: a Dafny model

This project models the core of a small web utility. Users paste a Sentry
envelope into it: newline-delimited text with one JSON value per line. The
utility pretty-prints the envelope line by line and keeps the result in a
short-lived in-memory store, so that the page can be shown again after a
redirect.

The model covers three parts of `main.go`:

- **The envelope formatter** (`formatEnvelope`). A `bufio.Scanner` splits
  the input into lines. Each line is trimmed. A blank line writes one
  newline. Any other line is decoded as JSON and written back indented,
  followed by a blank line. The first line that does not decode aborts the
  whole call with `line N is not valid JSON: …`. N is 1-based and counts
  blank lines too. Anything already written is discarded.
  - `scanner.dfy` models the scanner. `ScanLines` is the token sequence.
    `LineScanner.Scan` is the step the loop calls.
  - `text.dfy` models `strings.TrimSpace`, using Go's `unicode.IsSpace`
    set, and the `%d` rendering of the line number.
  - `envelope.dfy` holds the loop itself (`FormatEnvelope`, a `while` loop
    over the scanner) and its specification. `Piece` gives the
    contribution of one line. `Assemble` runs the loop over those
    contributions. `Format` runs it over a whole envelope.
- **The result store** (`storeResult`, `getResult`, `cleanupOldResults`).
  This is a class holding a `map` from id to `ResultData`. Its methods
  update the map in place. The cleanup deletes entries inside a loop over
  the keys, as the Go range loop does.
- **The record building in `PostHandler`.** `Handler.Record` is the record
  a submission produces. `BuildResult` computes it by calling the
  formatter. `PostHandler` stores it.

JSON decoding and indented encoding are parameters of the model:
`parse: string -> ParseResult<V>` and `pretty: V -> string`. The same holds
for the random id and the current time. Time is an integer count of
nanoseconds, so `time.Hour` is 3 600 000 000 000.

Two behaviours of the code are worth noting:

- Only the exactly empty input gets the "Please paste a Sentry envelope"
  prompt. Input made only of white space goes to the formatter. It succeeds
  with one newline per line (`Handler.WhitespaceInputHasResult`).
- `getResult` does not check an entry's age. An entry older than an hour
  stays readable until a cleanup runs. In the program, a cleanup runs only
  after a later `storeResult`.

## Model

| member | source | states |
|---|---|---|
| `Text.TrimSpace` | main.go:46 | `strings.TrimSpace`: removes the leading and trailing characters of Go's `unicode.IsSpace` set. `TrimSpaceSlice`, `TrimSpaceEmptyIff` and `TrimSpaceIgnoresTrailingCR` state what it yields. |
| `Text.TrimSpaceSlice` | main.go:46 | The trimmed line is a contiguous slice of the line. Everything cut from both ends is white space. The result neither starts nor ends with white space. |
| `Text.TrimSpaceEmptyIff` | main.go:46-50 | A line trims to "" exactly when every character in it is white space. |
| `Text.TrimSpaceIgnoresTrailingCR` | main.go:46 | Removing one trailing carriage return never changes the trimmed text. |
| `Text.DecimalString` | main.go:58 | The `%d` rendering of the line number. Its contract: at least one character, all of them decimal digits, and no leading zero unless the number is 0. |
| `Text.DecimalRoundTrip` | main.go:58 | Reading the rendered line number back as a decimal number gives the number. |
| `Text.DecimalStringInjective` | main.go:58 | Different line numbers render as different digit strings. |
| `Scanning.ScanLines` | main.go:42-45 | The tokens a `bufio.Scanner` with its default line splitting yields for the whole input, in order. The lemmas below state its behaviour. |
| `Scanning.LineScanner.Scan` | main.go:45 | One scanner step. When input is left, the token is the first line of the unread input, less one trailing CR. The tokens still to come are exactly the ones after it, and the unread input shrinks. At the end of the input it returns false and changes nothing. |
| `Scanning.LineScanner.constructor` | main.go:42 | A new scanner has the whole envelope unread. The tokens to come are all of its lines. |
| `Scanning.TokensHaveNoNewline` | main.go:45 | No scanned line contains a newline. |
| `Scanning.ScanLinesCons` | main.go:45 | Input that starts with a line and a newline scans as that line, minus one trailing CR, followed by the lines of the rest. |
| `Scanning.ScanTwoLines` | main.go:45 | Two newline-terminated lines before the rest scan as those two lines, each less one trailing CR, followed by the lines of the rest. |
| `Scanning.ScanJoinTerminated` | main.go:45 | Newline-terminated lines scan back as exactly those lines, each minus one trailing CR. There is no extra empty line after the final newline. |
| `Scanning.ScanLinesLastLine` | main.go:45 | A non-empty final line with no newline is still one token, less one trailing CR. |
| `Scanning.ScanJoinWithLast` | main.go:45 | Newline-terminated lines followed by a non-empty unterminated last line scan as exactly those lines and then the last one. So the last line is processed too. |
| `Scanning.ScanLinesOfSpace` | main.go:45-46 | Input made only of white space scans into lines made only of white space. |
| `Scanning.ScanLinesNonEmpty` | main.go:45 | The scanner yields at least one line exactly when the input is non-empty, so "" yields no lines. |
| `Envelope.Piece` | main.go:46-67 | The contribution of one scanned line to the loop: "\n" for a blank trimmed line, the indented value plus "\n\n" for a line that parses, and a rejection carrying the decoder's diagnostic otherwise. `BlankLineIff` and `NonBlankLine` state these cases. |
| `Envelope.BlankLineIff` | main.go:46-52 | A line contributes exactly "\n" if and only if it is blank. Blank lines are kept, never dropped. |
| `Envelope.NonBlankLine` | main.go:55-67 | A non-blank line that parses contributes its indented form plus "\n\n". A non-blank line that does not parse is rejected with the decoder's diagnostic. |
| `Envelope.PieceIgnoresCR` | main.go:45-46 | Dropping the CR before a newline never changes what a line contributes. |
| `Envelope.Assemble` | main.go:43-68 | The line loop over classified lines. Its contract: a reported line number is between 1 and the number of lines. `AssembleSuccessIff`, `AssembleFailureIff` and `AssembleAppend` characterise it. |
| `Envelope.FormatLines` | main.go:43-74 | The loop applied to scanned lines. `FormatLinesSuccess`, `FormatLinesFailure` and `FormatLinesStep` characterise it. |
| `Envelope.Format` | main.go:40-75 | What `formatEnvelope` returns for a whole envelope: the loop over its scanned lines. `FormatEnvelope` is proved to compute it. |
| `Envelope.ErrorMessage` | main.go:58 | The text `line N is not valid JSON: ` followed by the decoder's diagnostic. `ErrorMessageInjective` states that it loses nothing. |
| `Envelope.FailureIsFinal` | main.go:57-58 | Once a line is rejected, the lines after it are never examined. Appending any lines leaves the error unchanged. |
| `Envelope.AssembleAppend` | main.go:45-74 | After an accepted block of lines, the output of the next block is appended in order. An error in that block is reported with its line number shifted by the size of the first block, blank lines included. |
| `Envelope.AssembleSuccessIff` | main.go:45-74 | The loop succeeds exactly when every line is accepted. Its output is then the front-to-back concatenation of the lines' contributions. |
| `Envelope.AssembleFailureIff` | main.go:43-58 | Both directions: the loop fails with (n, r) exactly when line n (1-based) is rejected with r and every earlier line is accepted. |
| `Envelope.NewlinePiecesGiveNewlines` | main.go:50-52 | Lines that each contribute a newline give one newline per line. |
| `Envelope.FormatLinesSuccess` | main.go:45-74 | Formatting scanned lines succeeds exactly when each line is blank or parses. The output is then the contributions in input order. |
| `Envelope.FormatLinesFailure` | main.go:43-58 | Both directions: formatting fails with line n and reason r exactly when line n is the first line that does not parse, and it gives r. Blank lines count towards n. |
| `Envelope.FormatLinesStep` | main.go:47-67 | Each further line appends its contribution to the output so far. If it is rejected, the error names it by its 1-based position. |
| `Envelope.FirstRejectDecides` | main.go:57-58 | If line k+1 is the first rejected line, the outcome is that line's error, whatever follows it. |
| `Envelope.BlankLinesGiveNewlines` | main.go:50-52 | Lines that are all blank format without error to one newline each. |
| `Envelope.EmptyEnvelope` | main.go:41-74 | The empty envelope formats to "" with no error. |
| `Envelope.WhitespaceLines` | main.go:45-74 | k newline-terminated whitespace-only lines format to exactly k newlines, with no error. |
| `Envelope.WhitespaceEnvelope` | main.go:45-74 | Any all-white-space envelope formats without error to one newline per scanned line. A non-empty one has at least one line. |
| `Envelope.FailFastOnSecondLine` | main.go:45-58 | An accepted first line followed by a rejected second line gives the error for line 2, whatever follows. This is the `{"a":1}` / `not json` / `{"b":2}` case. |
| `Envelope.ErrorMessageInjective` | main.go:58 | The error text keeps the line number and the diagnostic recoverable: different errors give different messages. |
| `Envelope.FormatEnvelope` | main.go:40-75 | The scanner loop returns exactly the outcome of `Format`: the output on success, or "" and the first error on failure. |
| `Store.Sweep` | main.go:103-112 | The map a cleanup at `now` leaves: the entries not stamped strictly before now - 1h. The lemmas below state its properties. |
| `Store.SweepExactly` | main.go:103-112 | A cleanup at `now` removes exactly the entries stamped strictly before now - 1h. Every kept entry is unchanged. |
| `Store.SweepIdempotent` | main.go:103-112 | A second cleanup at the same time changes nothing. |
| `Store.SweepThenLaterSweep` | main.go:103-112 | A cleanup followed by a later one leaves what the later one alone would leave. |
| `Store.StoredEntrySurvives` | main.go:83-112 | An entry stored at t survives every cleanup at a time up to t + 1h, with its data unchanged. |
| `Store.ResultStore.constructor` | main.go:37 | The store starts empty. |
| `Store.ResultStore.GetResult` | main.go:96-101 | Returns the stored entry and true when the id is present. Otherwise returns the zero record and false. |
| `Store.ResultStore.StoreResult` | main.go:83-94 | Stores the data under the id, stamped with `now`, and returns the id. A lookup of the id then returns that record with true. Every other id's lookup is unchanged. |
| `Store.ResultStore.CleanupOldResults` | main.go:103-113 | The deleting loop over the keys leaves exactly `Sweep(old entries, now)`. |
| `Handler.Record` | main.go:145-159 | The record a submission produces, before it is stamped. `RecordCases` states its cases. |
| `Handler.RecordCases` | main.go:145-159 | The input is always kept. Exactly "" gives the prompt and no result. A formatter error gives its message and no result. Success gives the output and a result. A record has a result exactly when its error is "". |
| `Handler.WhitespaceInputHasResult` | main.go:149-158 | Non-empty white-space-only input is not treated as empty. It gets a result of one newline per line. |
| `Handler.BuildResult` | main.go:145-159 | The record-building steps, including the call to the formatter, produce exactly `Record`. |
| `Handler.PostHandler` | main.go:144-162 | The built record is stored under the given id, stamped with `now`, and the id is returned. No other entry changes. |

## Left out

- JSON itself. `json.Unmarshal` and `json.MarshalIndent` are the parameters `parse` and `pretty`. Their syntax rules, diagnostics, number handling and two-space indentation are not modelled. So the idempotence of formatting already-pretty input is not stated.
- The "failed to format JSON on line N" branch (main.go:63-64). `pretty` always succeeds, since re-encoding a freshly decoded value has no failure case worth modelling.
- The scanner's error branch (main.go:70-72). `LineScanner` has no 64 KiB token limit. A line longer than that, which the program rejects with "error reading envelope", is formatted by the model.
- Invalid UTF-8. Strings are sequences of characters, and white space is Go's `unicode.IsSpace` set over them.
- `generateID` (main.go:77-81) and `time.Now`. The id and the time are parameters. An id that is already present is overwritten, as the Go map assignment would do.
- `sync.RWMutex` and the `go cleanupOldResults()` goroutine (main.go:87-91, 97-99, 104-105). `CleanupOldResults` is a separate method called with its own `now`. `PostHandler` does not start it.
- `initTemplates`, `GetHandler`, the redirect in `PostHandler`, the Sentry SDK setup and `main` (main.go:115-142, 163, 166-188). These are HTTP and presentation plumbing.
